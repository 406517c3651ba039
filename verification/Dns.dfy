/** The DNS reply parser: the message forms of sections 4.1.1 to 4.1.4 of RFC
    1035.  A message is the n bytes the C code is given, so every index below is
    a proof that it reads none past them. */
module Dns {
  import opened Bytes

  datatype Option<T> = None | Some(value: T)

  /** -1, 0 and 1 of dns_answer. */
  datatype Reply = Broken | NoAddress | Address(ip: nat)

  // ----- the grammar, recursively

  /** Where the name at p ends: after a zero byte, or after a pointer. */
  function NameEnd(m: seq<byte>, p: nat): (r: Option<nat>)
    ensures r.Some? ==> p < r.value <= |m|
    decreases |m| - p
  {
    if p >= |m| then None
    else if m[p] == 0 then Some(p + 1)
    else if m[p] >= 0xC0 then (if p + 2 > |m| then None else Some(p + 2))
    else NameEnd(m, p + m[p] + 1)
  }

  function Big16(m: seq<byte>, p: nat): (r: nat)
    requires p + 2 <= |m|
    ensures r < 0x1_0000
  {
    var hi: int, lo: int := m[p], m[p + 1];
    0x100 * hi + lo
  }

  function Big32(m: seq<byte>, p: nat): (r: nat)
    requires p + 4 <= |m|
    ensures r < U32
  {
    0x1_0000 * Big16(m, p) + Big16(m, p + 2)
  }

  /** Where the record data of the answer at p begins. */
  function DataStart(m: seq<byte>, p: nat): (r: Option<nat>)
    ensures r.Some? ==> p + 11 <= r.value <= |m| && r.value + Big16(m, r.value - 2) <= |m|
  {
    var e := NameEnd(m, p);
    if e.None? || e.value + 10 > |m| then None
    else if Big16(m, e.value + 8) > |m| - (e.value + 10) then None
    else Some(e.value + 10)
  }

  /** The first address among k answers from p on. */
  function Answers(m: seq<byte>, p: nat, k: nat): Reply
    decreases k
  {
    if k == 0 then NoAddress
    else
      var d := DataStart(m, p);
      if d.None? then Broken
      else if Big16(m, d.value - 10) == 1 && Big16(m, d.value - 2) == 4 then Address(Big32(m, d.value))
      else Answers(m, d.value + Big16(m, d.value - 2), k - 1)
  }

  function Answer(m: seq<byte>, txid: nat): Reply {
    if |m| < 12 || Big16(m, 0) != txid then Broken
    else if Big16(m, 6) == 0 then NoAddress
    else
      var q := NameEnd(m, 12);
      if q.None? || q.value + 4 > |m| then Broken else Answers(m, q.value + 4, Big16(m, 6))
  }

  /** Every answer takes 11 bytes at least, so a reply said to hold more of them
      than it has room for is broken, or has an address among the first. */
  lemma {:induction false} AnswersTake(m: seq<byte>, p: nat, k: nat)
    requires p <= |m| && Answers(m, p, k) == NoAddress
    ensures p + 11 * k <= |m|
    decreases k
  {
    hide Big16;
    hide Big32;
    hide NameEnd;
    if k > 0 {
      var d := DataStart(m, p).value;
      AnswersTake(m, d + Big16(m, d - 2), k - 1);
    }
  }

  /** A position cannot wrap 32 bits in a message of n bytes if and only if n is
      192 less than 4 GB or below. */
  lemma NeverWraps(n: nat)
    requires 0 < n < U32
    ensures n + 0xC0 <= U32 <==> forall m: seq<byte>, p: nat | |m| == n && p < n && m[p] / 0x40 != 3 ::
            p + m[p] + 1 < U32
  {
    if n + 0xC0 > U32 {
      var m: seq<byte> := seq(n, (i: nat) => 0xBF as byte);
      assert |m| == n && m[n - 1] / 0x40 != 3 && n - 1 + m[n - 1] + 1 >= U32;
    }
  }

  // ----- the code

  /** dns_skip. */
  method DnsSkip(m: seq<byte>, p0: nat) returns (ok: bool, p: nat)
    requires |m| + 0xC0 <= U32
    ensures ok == NameEnd(m, p0).Some? && (ok ==> p == NameEnd(m, p0).value)
  {
    p := p0;
    while p < |m| && m[p] != 0
      invariant NameEnd(m, p) == NameEnd(m, p0)
      decreases |m| - p
    {
      if m[p] / 0x40 == 3 {
        if p + 2 > |m| { return false, p; }
        p := p + 2;
        return true, p;
      }
      p := Wrap(p + m[p] + 1);
    }
    if p >= |m| { return false, p; }
    p := p + 1;
    ok := true;
  }

  /** dns_answer: 1 with the first address, 0 for a reply without one, -1 for
      what is not the reply, or is broken. */
  method DnsAnswer(m: seq<byte>, txid: nat) returns (r: int, ip: nat)
    requires |m| + 0xC0 <= U32
    ensures match Answer(m, txid)
      case Broken => r == -1
      case NoAddress => r == 0
      case Address(a) => r == 1 && ip == a
    ensures |m| < 12 || (m[0] as int) * 0x100 + m[1] as int != txid ==> r == -1
    ensures |m| >= 12 && (m[0] as int) * 0x100 + m[1] as int == txid && m[6] == 0 && m[7] == 0 ==> r == 0
  {
    hide NameEnd;
    hide Big16;
    hide Big32;
    if |m| >= 12 { HeaderRead(m); }
    ip := 0;
    if |m| < 12 || Big16(m, 0) != txid { return -1, 0; }
    var an, p: nat := Big16(m, 6), 12;
    if an == 0 { return 0, 0; }
    var ok;
    ok, p := DnsSkip(m, p);
    if !ok || p + 4 > |m| { return -1, 0; }
    p := p + 4;
    var i: nat := 0;
    while i < an
      invariant i <= an && Answers(m, p, an - i) == Answer(m, txid) && 12 + 11 * i <= p <= |m|
    {
      ok, p := DnsSkip(m, p);
      if !ok || p + 10 > |m| { return -1, 0; }
      var rtype, rdl := Big16(m, p), Big16(m, p + 8);
      p := p + 10;
      if rdl > |m| - p { return -1, 0; }
      if rtype == 1 && rdl == 4 { return 1, Big32(m, p); }
      p := p + rdl;
      i := i + 1;
    }
    r := 0;
  }

  /** The two numbers of the header that matter, the high byte first. */
  lemma HeaderRead(m: seq<byte>)
    requires |m| >= 12
    ensures Big16(m, 0) == (m[0] as int) * 0x100 + m[1] as int && Big16(m, 6) == (m[6] as int) * 0x100 + m[7] as int
  {
  }

  // ----- messages, and what is read back from them

  /** Labels, then a zero byte or a pointer. */
  datatype DomainName = DomainName(labels: seq<seq<byte>>, pointer: Option<nat>)

  /** A resource record: name, type, six bytes of class and time to live, data. */
  datatype Record = Record(name: DomainName, rtype: nat, rest: seq<byte>, data: seq<byte>)

  predicate NameValid(n: DomainName) {
    (forall i | 0 <= i < |n.labels| :: 1 <= |n.labels[i]| <= 63) && (n.pointer.Some? ==> n.pointer.value < 0x4000)
  }

  predicate RecordValid(r: Record) {
    NameValid(r.name) && r.rtype < 0x1_0000 && |r.rest| == 6 && |r.data| < 0x1_0000
  }

  function Two(v: nat): (r: seq<byte>)
    requires v < 0x1_0000
    ensures |r| == 2
  {
    [v / 0x100, v % 0x100]
  }

  function NameBytes(n: DomainName): seq<byte>
    requires NameValid(n)
    decreases |n.labels|
  {
    if |n.labels| > 0 then
      assert NameValid(DomainName(n.labels[1..], n.pointer));
      [|n.labels[0]|] + n.labels[0] + NameBytes(DomainName(n.labels[1..], n.pointer))
    else if n.pointer.Some? then [0xC0 + n.pointer.value / 0x100, n.pointer.value % 0x100]
    else [0]
  }

  function RecordBytes(r: Record): seq<byte>
    requires RecordValid(r)
  {
    NameBytes(r.name) + Two(r.rtype) + r.rest + Two(|r.data|) + r.data
  }

  function RecordsBytes(rs: seq<Record>): seq<byte>
    requires forall i | 0 <= i < |rs| :: RecordValid(rs[i])
  {
    if |rs| == 0 then [] else RecordBytes(rs[0]) + RecordsBytes(rs[1..])
  }

  /** A reply: header, one question, the answers, and whatever follows them. */
  function MessageBytes(id: nat, flags: seq<byte>, counts: seq<byte>, question: DomainName, qtype: seq<byte>,
                        rs: seq<Record>, more: seq<byte>): seq<byte>
    requires id < 0x1_0000 && |flags| == 4 && |counts| == 4 && NameValid(question) && |qtype| == 4 && |rs| < 0x1_0000
    requires forall i | 0 <= i < |rs| :: RecordValid(rs[i])
  {
    Two(id) + flags + Two(|rs|) + counts + NameBytes(question) + qtype + RecordsBytes(rs) + more
  }

  /** The first record of type 1 with four bytes of data. */
  function FirstAddress(rs: seq<Record>): Reply {
    if |rs| == 0 then NoAddress
    else if rs[0].rtype == 1 && |rs[0].data| == 4 then Address(Big32(rs[0].data, 0))
    else FirstAddress(rs[1..])
  }

  /** e stands at p of m. */
  predicate At(m: seq<byte>, p: nat, e: seq<byte>) {
    p + |e| <= |m| && m[p..p + |e|] == e
  }

  lemma AtSplit(m: seq<byte>, p: nat, a: seq<byte>, b: seq<byte>)
    requires At(m, p, a + b)
    ensures At(m, p, a) && At(m, p + |a|, b)
  {
    assert m[p..p + |a|] == (a + b)[..|a|];
    assert m[p + |a|..p + |a| + |b|] == (a + b)[|a|..];
  }

  lemma AtByte(m: seq<byte>, p: nat, e: seq<byte>, i: nat)
    requires At(m, p, e) && i < |e|
    ensures m[p + i] == e[i]
  {
    assert m[p..p + |e|][i] == e[i];
  }

  lemma {:induction false} NameSkipped(m: seq<byte>, p: nat, n: DomainName)
    requires NameValid(n) && At(m, p, NameBytes(n))
    ensures NameEnd(m, p) == Some(p + |NameBytes(n)|)
    decreases |n.labels|
  {
    AtByte(m, p, NameBytes(n), 0);
    if |n.labels| > 0 {
      var rest := DomainName(n.labels[1..], n.pointer);
      assert NameValid(rest);
      AtSplit(m, p, [|n.labels[0]|] + n.labels[0], NameBytes(rest));
      hide At;
      hide NameValid;
      NameSkipped(m, p + 1 + |n.labels[0]|, rest);
    }
  }

  lemma TwoRead(m: seq<byte>, p: nat, v: nat)
    requires v < 0x1_0000 && At(m, p, Two(v))
    ensures Big16(m, p) == v
  {
    AtByte(m, p, Two(v), 0);
    AtByte(m, p, Two(v), 1);
  }

  /** One record in place: where it ends, its type, length and data. */
  lemma RecordRead(m: seq<byte>, p: nat, r: Record)
    requires RecordValid(r) && At(m, p, RecordBytes(r))
    ensures var d := DataStart(m, p);
            && d.Some? && Big16(m, d.value - 10) == r.rtype && Big16(m, d.value - 2) == |r.data|
            && At(m, d.value, r.data) && d.value + |r.data| == p + |RecordBytes(r)|
  {
    var n, t, l := NameBytes(r.name), Two(r.rtype), Two(|r.data|);
    AtSplit(m, p, n + t + r.rest + l, r.data);
    AtSplit(m, p, n + t + r.rest, l);
    AtSplit(m, p, n + t, r.rest);
    AtSplit(m, p, n, t);
    NameSkipped(m, p, r.name);
    TwoRead(m, p + |n|, r.rtype);
    TwoRead(m, p + |n| + 8, |r.data|);
  }

  lemma DataRead(m: seq<byte>, p: nat, data: seq<byte>)
    requires At(m, p, data) && |data| == 4
    ensures Big32(m, p) == Big32(data, 0)
  {
    AtByte(m, p, data, 0);
    AtByte(m, p, data, 1);
    AtByte(m, p, data, 2);
    AtByte(m, p, data, 3);
  }

  lemma {:induction false} AnswersRead(m: seq<byte>, p: nat, rs: seq<Record>)
    requires (forall i | 0 <= i < |rs| :: RecordValid(rs[i])) && At(m, p, RecordsBytes(rs))
    ensures Answers(m, p, |rs|) == FirstAddress(rs)
    decreases |rs|
  {
    hide RecordBytes;
    hide RecordValid;
    hide DataStart;
    hide Big16;
    hide Big32;
    hide At;
    if |rs| > 0 {
      AtSplit(m, p, RecordBytes(rs[0]), RecordsBytes(rs[1..]));
      RecordRead(m, p, rs[0]);
      if rs[0].rtype == 1 && |rs[0].data| == 4 {
        DataRead(m, DataStart(m, p).value, rs[0].data);
      } else {
        AnswersRead(m, p + |RecordBytes(rs[0])|, rs[1..]);
      }
    }
  }

  /** Whatever reply is put together, the parser gives its first address: that of
      record k when no record before k is one, and none when no record is. */
  lemma MessageRead(id: nat, flags: seq<byte>, counts: seq<byte>, question: DomainName, qtype: seq<byte>,
                    rs: seq<Record>, more: seq<byte>, k: nat)
    requires id < 0x1_0000 && |flags| == 4 && |counts| == 4 && NameValid(question) && |qtype| == 4 && |rs| < 0x1_0000
    requires forall i | 0 <= i < |rs| :: RecordValid(rs[i])
    requires k <= |rs| && forall j | 0 <= j < k :: rs[j].rtype != 1 || |rs[j].data| != 4
    ensures var r := Answer(MessageBytes(id, flags, counts, question, qtype, rs, more), id);
            && (k == |rs| ==> r == NoAddress)
            && (k < |rs| && rs[k].rtype == 1 && |rs[k].data| == 4 ==>
                  var d := rs[k].data;
                  r == Address(0x100_0000 * (d[0] as int) + 0x1_0000 * (d[1] as int) + 0x100 * (d[2] as int)
                               + d[3] as int))
  {
    hide *;
    var m := MessageBytes(id, flags, counts, question, qtype, rs, more);
    FirstIs(rs, k);
    if k < |rs| && |rs[k].data| == 4 { FourBytes(rs[k].data); }
    MessageParts(id, flags, counts, question, qtype, rs, more);
    if |rs| > 0 {
      NameSkipped(m, 12, question);
      AnswersRead(m, 12 + |NameBytes(question)| + 4, rs);
    }
    AnswerIs(m, id);
    NoRecords(rs);
  }

  /** The first address is that of the record at k, or none is, when no record
      before k is of type 1 with four bytes. */
  lemma {:induction false} FirstIs(rs: seq<Record>, k: nat)
    requires k <= |rs| && forall j | 0 <= j < k :: rs[j].rtype != 1 || |rs[j].data| != 4
    ensures k == |rs| ==> FirstAddress(rs) == NoAddress
    ensures k < |rs| && rs[k].rtype == 1 && |rs[k].data| == 4 ==> FirstAddress(rs) == Address(Big32(rs[k].data, 0))
  {
    hide Big32;
    if k > 0 { FirstIs(rs[1..], k - 1); }
  }

  lemma FourBytes(d: seq<byte>)
    requires |d| == 4
    ensures Big32(d, 0) ==
            0x100_0000 * (d[0] as int) + 0x1_0000 * (d[1] as int) + 0x100 * (d[2] as int) + d[3] as int
  {
  }

  lemma NoRecords(rs: seq<Record>)
    ensures |rs| == 0 ==> FirstAddress(rs) == NoAddress
  {
  }

  lemma AnswerIs(m: seq<byte>, txid: nat)
    requires |m| >= 12 && Big16(m, 0) == txid
    ensures Big16(m, 6) == 0 ==> Answer(m, txid) == NoAddress
    ensures var q := NameEnd(m, 12);
            Big16(m, 6) > 0 && q.Some? && q.value + 4 <= |m| ==> Answer(m, txid) == Answers(m, q.value + 4, Big16(m, 6))
  {
    hide Answers;
    hide NameEnd;
    hide Big16;
  }

  /** Where the parts of a reply stand. */
  lemma MessageParts(id: nat, flags: seq<byte>, counts: seq<byte>, question: DomainName, qtype: seq<byte>,
                     rs: seq<Record>, more: seq<byte>)
    requires id < 0x1_0000 && |flags| == 4 && |counts| == 4 && NameValid(question) && |qtype| == 4 && |rs| < 0x1_0000
    requires forall i | 0 <= i < |rs| :: RecordValid(rs[i])
    ensures var m, n := MessageBytes(id, flags, counts, question, qtype, rs, more), NameBytes(question);
            && |m| >= 12 + |n| + 4 && Big16(m, 0) == id && Big16(m, 6) == |rs|
            && At(m, 12, n) && At(m, 12 + |n| + 4, RecordsBytes(rs))
  {
    hide NameBytes;
    hide RecordsBytes;
    hide Two;
    hide Big16;
    hide NameValid;
    hide RecordValid;
    var m := MessageBytes(id, flags, counts, question, qtype, rs, more);
    var h, n, r := Two(id) + flags + Two(|rs|) + counts, NameBytes(question), RecordsBytes(rs);
    assert m == h + (n + qtype + r + more);
    assert At(m, 0, h + (n + qtype + r + more));
    hide At;
    AtSplit(m, 0, h, n + qtype + r + more);
    AtSplit(m, 0, Two(id) + flags + Two(|rs|), counts);
    AtSplit(m, 0, Two(id) + flags, Two(|rs|));
    AtSplit(m, 0, Two(id), flags);
    TwoRead(m, 0, id);
    TwoRead(m, 6, |rs|);
    AtSplit(m, 12, n + qtype + r, more);
    AtSplit(m, 12, n + qtype, r);
    AtSplit(m, 12, n, qtype);
  }

  // ----- messages cut short

  lemma AtCut(m: seq<byte>, p: nat, e: seq<byte>, n: nat)
    requires At(m, p, e) && p + |e| <= n <= |m|
    ensures At(m[..n], p, e)
  {
  }

  /** A name that does not end before the message does is none. */
  lemma {:induction false} NameCut(m: seq<byte>, p: nat, nm: DomainName, n: nat)
    requires NameValid(nm) && At(m, p, NameBytes(nm)) && n <= |m| && n < p + |NameBytes(nm)|
    ensures NameEnd(m[..n], p) == None
    decreases |nm.labels|
  {
    if p < n {
      AtByte(m, p, NameBytes(nm), 0);
      assert m[..n][p] == m[p];
      if |nm.labels| > 0 {
        var rest := DomainName(nm.labels[1..], nm.pointer);
        assert NameValid(rest);
        AtSplit(m, p, [|nm.labels[0]|] + nm.labels[0], NameBytes(rest));
        hide At;
        hide NameValid;
        NameCut(m, p + 1 + |nm.labels[0]|, rest, n);
      }
    }
  }

  /** Nor is there a record. */
  lemma RecordCut(m: seq<byte>, p: nat, r: Record, n: nat)
    requires RecordValid(r) && At(m, p, RecordBytes(r)) && n <= |m| && n < p + |RecordBytes(r)|
    ensures DataStart(m[..n], p) == None
  {
    var nm, t, l := NameBytes(r.name), Two(r.rtype), Two(|r.data|);
    AtSplit(m, p, nm + t + r.rest + l, r.data);
    AtSplit(m, p, nm + t + r.rest, l);
    AtSplit(m, p, nm + t, r.rest);
    AtSplit(m, p, nm, t);
    if n < p + |nm| {
      NameCut(m, p, r.name, n);
    } else {
      AtCut(m, p, nm, n);
      NameSkipped(m[..n], p, r.name);
      if n >= p + |nm| + 10 {
        AtCut(m, p + |nm| + 8, l, n);
        TwoRead(m[..n], p + |nm| + 8, |r.data|);
      }
    }
  }

  /** Nor do the answers give an address when none of those before k is one. */
  lemma {:induction false} AnswersCut(m: seq<byte>, p: nat, rs: seq<Record>, k: nat, n: nat)
    requires (forall i | 0 <= i < |rs| :: RecordValid(rs[i])) && At(m, p, RecordsBytes(rs))
    requires k < |rs| && (forall j | 0 <= j < k :: rs[j].rtype != 1 || |rs[j].data| != 4)
    requires n <= |m| && n < p + |RecordsBytes(rs[..k + 1])|
    ensures Answers(m[..n], p, |rs|) == Broken
    decreases |rs|
  {
    hide RecordBytes;
    hide RecordValid;
    hide DataStart;
    hide Big16;
    hide Big32;
    hide At;
    AtSplit(m, p, RecordBytes(rs[0]), RecordsBytes(rs[1..]));
    assert rs[..k + 1][0] == rs[0] && rs[..k + 1][1..] == rs[1..][..k];
    if n < p + |RecordBytes(rs[0])| {
      RecordCut(m, p, rs[0], n);
    } else {
      AtCut(m, p, RecordBytes(rs[0]), n);
      RecordRead(m[..n], p, rs[0]);
      if k > 0 { AnswersCut(m, p + |RecordBytes(rs[0])|, rs[1..], k - 1, n); }
    }
  }

  /** A reply cut anywhere before record k ends is broken when no record before k
      is an address. */
  lemma CutReply(id: nat, flags: seq<byte>, counts: seq<byte>, question: DomainName, qtype: seq<byte>, rs: seq<Record>,
                 more: seq<byte>, k: nat, n: nat)
    requires id < 0x1_0000 && |flags| == 4 && |counts| == 4 && NameValid(question) && |qtype| == 4 && |rs| < 0x1_0000
    requires forall i | 0 <= i < |rs| :: RecordValid(rs[i])
    requires k < |rs| && (forall j | 0 <= j < k :: rs[j].rtype != 1 || |rs[j].data| != 4)
    requires n < 12 + |NameBytes(question)| + 4 + |RecordsBytes(rs[..k + 1])|
    requires n <= |MessageBytes(id, flags, counts, question, qtype, rs, more)|
    ensures Answer(MessageBytes(id, flags, counts, question, qtype, rs, more)[..n], id) == Broken
  {
    hide *;
    var m := MessageBytes(id, flags, counts, question, qtype, rs, more);
    MessageParts(id, flags, counts, question, qtype, rs, more);
    var c, q := m[..n], 12 + |NameBytes(question)|;
    if n >= 12 {
      CutHeader(m, n);
      if n < q {
        NameCut(m, 12, question, n);
      } else {
        AtCut(m, 12, NameBytes(question), n);
        NameSkipped(c, 12, question);
        if n >= q + 4 { AnswersCut(m, q + 4, rs, k, n); }
      }
    }
    CutAnswer(c, id);
  }

  lemma CutHeader(m: seq<byte>, n: nat)
    requires 12 <= n <= |m|
    ensures Big16(m[..n], 0) == Big16(m, 0) && Big16(m[..n], 6) == Big16(m, 6)
  {
  }

  lemma CutAnswer(m: seq<byte>, txid: nat)
    ensures |m| < 12 ==> Answer(m, txid) == Broken
    ensures |m| >= 12 && Big16(m, 0) == txid && Big16(m, 6) > 0 ==>
            var q := NameEnd(m, 12);
            Answer(m, txid) == if q.None? || q.value + 4 > |m| then Broken else Answers(m, q.value + 4, Big16(m, 6))
  {
    hide Answers;
    hide NameEnd;
    hide Big16;
  }

  // ----- one reply, byte by byte

  /** A reply to the question for "a" - an alias, then the address 192.0.2.1, both
      under a pointer to the question's name - gives that address to the query it
      answers, and nothing to another. */
  lemma ReplyRead()
    ensures var header: seq<byte> := [0x12, 0x34, 0x81, 0x80, 0, 1, 0, 2, 0, 0, 0, 0];
            var question: seq<byte> := [1, 0x61, 0, 0, 1, 0, 1];
            var alias: seq<byte> := [0xC0, 12, 0, 5, 0, 1, 0, 0, 0, 60, 0, 2, 0xC0, 12];
            var address: seq<byte> := [0xC0, 12, 0, 1, 0, 1, 0, 0, 0, 60, 0, 4, 192, 0, 2, 1];
            var m := header + question + alias + address;
            Answer(m, 0x1234) == Address(0xC000_0201) && Answer(m, 0x4321) == Broken
  {
    hide *;
    var header: seq<byte> := [0x12, 0x34, 0x81, 0x80, 0, 1, 0, 2, 0, 0, 0, 0];
    var question: seq<byte> := [1, 0x61, 0, 0, 1, 0, 1];
    var alias: seq<byte> := [0xC0, 12, 0, 5, 0, 1, 0, 0, 0, 60, 0, 2, 0xC0, 12];
    var address: seq<byte> := [0xC0, 12, 0, 1, 0, 1, 0, 0, 0, 60, 0, 4, 192, 0, 2, 1];
    var m := header + question + alias + address;
    Joined(header, question, alias, address);
    Pair(m, 0, 0x12, 0x34);
    Pair(m, 6, 0, 2);
    Pair(m, 21, 0, 5);
    Pair(m, 29, 0, 2);
    Pair(m, 35, 0, 1);
    Pair(m, 43, 0, 4);
    Pair(m, 45, 192, 0);
    Pair(m, 47, 2, 1);
    Quad(m, 45);
    ReplySteps(m);
  }

  lemma Joined(a: seq<byte>, b: seq<byte>, c: seq<byte>, d: seq<byte>)
    requires |a| == 12 && |b| == 7 && |c| == 14 && |d| == 16
    ensures var m := a + b + c + d;
            && |m| == 49 && m[0] == a[0] && m[1] == a[1] && m[6] == a[6] && m[7] == a[7]
            && m[12] == b[0] && m[14] == b[2] && m[19] == c[0] && m[21] == c[2] && m[22] == c[3]
            && m[29] == c[10] && m[30] == c[11] && m[33] == d[0] && m[35] == d[2] && m[36] == d[3]
            && m[43] == d[10] && m[44] == d[11] && m[45] == d[12] && m[46] == d[13] && m[47] == d[14] && m[48] == d[15]
  {
  }

  lemma Pair(m: seq<byte>, p: nat, hi: nat, lo: nat)
    requires p + 2 <= |m| && m[p] as int == hi && m[p + 1] as int == lo
    ensures Big16(m, p) == 0x100 * hi + lo
  {
  }

  lemma Quad(m: seq<byte>, p: nat)
    requires p + 4 <= |m|
    ensures Big32(m, p) == 0x1_0000 * Big16(m, p) + Big16(m, p + 2)
  {
    hide Big16;
  }

  lemma ReplySteps(m: seq<byte>)
    requires |m| == 49 && Big16(m, 0) == 0x1234 && Big16(m, 6) == 2
    requires m[12] == 1 && m[14] == 0 && m[19] == 0xC0 && m[33] == 0xC0
    requires Big16(m, 21) == 5 && Big16(m, 29) == 2 && Big16(m, 35) == 1 && Big16(m, 43) == 4
    requires Big32(m, 45) == 0xC000_0201
    ensures Answer(m, 0x1234) == Address(0xC000_0201) && Answer(m, 0x4321) == Broken
  {
    hide Big16;
    hide Big32;
    assert NameEnd(m, 14) == Some(15);
    assert NameEnd(m, 12) == Some(15);
    assert NameEnd(m, 19) == Some(21) && NameEnd(m, 33) == Some(35);
    hide NameEnd;
    assert DataStart(m, 19) == Some(31) && DataStart(m, 33) == Some(45);
    hide DataStart;
    assert Answers(m, 33, 1) == Address(Big32(m, 45));
    assert Answers(m, 19, 2) == Answers(m, 33, 1);
    hide Answers;
  }
}
