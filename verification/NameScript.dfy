/**
 * Namecoin script pushes and name scripts (src/electrumx.js): `pushData` and its reader, the canonical
 * index script, and the parser of NAME_UPDATE and NAME_FIRSTUPDATE outputs.
 */
module NameScript {
  import opened Wrappers

  type Byte = b: int | 0 <= b < 256
  type Bytes = seq<Byte>

  const OP_0: Byte := 0x00
  const OP_PUSHDATA1: Byte := 0x4c
  const OP_PUSHDATA2: Byte := 0x4d
  const OP_PUSHDATA4: Byte := 0x4e
  const OP_RETURN: Byte := 0x6a
  const OP_2DROP: Byte := 0x6d
  const OP_DROP: Byte := 0x75
  const OP_NAME_UPDATE: Byte := 0x53
  const OP_NAME_FIRSTUPDATE: Byte := 0x52
  const NAME_FIRSTUPDATE_RAND_LEN := 20

  /** What `writeUInt32LE` can hold; a longer push throws in the source. */
  const PUSH_LIMIT := 0x1_0000_0000

  function UInt16LE(n: nat): Bytes
    requires n < 0x1_0000
  {
    [n % 256, n / 256]
  }

  function UInt32LE(n: nat): Bytes
    requires n < PUSH_LIMIT
  {
    UInt16LE(n % 0x1_0000) + UInt16LE(n / 0x1_0000)
  }

  function ReadUInt16LE(s: Bytes, i: nat): nat
    requires i + 2 <= |s|
  {
    s[i] as int + 256 * (s[i + 1] as int)
  }

  function ReadUInt32LE(s: Bytes, i: nat): nat
    requires i + 4 <= |s|
  {
    ReadUInt16LE(s, i) + 0x1_0000 * ReadUInt16LE(s, i + 2)
  }

  /** The bytes before the data of a push. */
  function PushHeader(len: nat): Bytes
    requires len < PUSH_LIMIT
  {
    if len < OP_PUSHDATA1 then [len]
    else if len <= 0xff then [OP_PUSHDATA1, len]
    else if len <= 0xffff then [OP_PUSHDATA2] + UInt16LE(len)
    else [OP_PUSHDATA4] + UInt32LE(len)
  }

  function PushData(data: Bytes): Bytes
    requires |data| < PUSH_LIMIT
  {
    PushHeader(|data|) + data
  }

  /** The data of a push and the position after it. */
  datatype Push = Push(data: Bytes, next: nat)

  function Slice(script: Bytes, from: nat, len: nat): Option<Push> {
    if from + len > |script| then None else Some(Push(script[from..from + len], from + len))
  }

  function ReadPushData(script: Bytes, pos: nat): Option<Push> {
    if pos >= |script| then None
    else
      var op := script[pos];
      if op == OP_0 then Some(Push([], pos + 1))
      else if op < OP_PUSHDATA1 then Slice(script, pos + 1, op)
      else if op == OP_PUSHDATA1 then
        if pos + 2 > |script| then None else Slice(script, pos + 2, script[pos + 1])
      else if op == OP_PUSHDATA2 then
        if pos + 3 > |script| then None else Slice(script, pos + 3, ReadUInt16LE(script, pos + 1))
      else if op == OP_PUSHDATA4 then
        if pos + 5 > |script| then None else Slice(script, pos + 5, ReadUInt32LE(script, pos + 1))
      else None
  }

  function BuildNameIndexScript(nameBytes: Bytes): Bytes
    requires |nameBytes| < PUSH_LIMIT
  {
    [OP_NAME_UPDATE] + PushData(nameBytes) + PushData([]) + [OP_2DROP, OP_DROP, OP_RETURN]
  }

  /** Node's `ascii` decoding drops the high bit of every byte. */
  function Ascii(bytes: Bytes): Bytes {
    seq(|bytes|, i requires 0 <= i < |bytes| => bytes[i] % 128)
  }

  /** A parsed name output: the operation, the decoded name, and the value's bytes, whose UTF-8
      decoding is left to the caller. */
  datatype NameRow = NameRow(op: Byte, name: Bytes, value: Bytes)

  function ValuePush(script: Bytes, op: Byte, pos: nat): Option<Push> {
    var second := ReadPushData(script, pos);
    if op == OP_NAME_FIRSTUPDATE && second.Some? && |second.value.data| == NAME_FIRSTUPDATE_RAND_LEN
    then ReadPushData(script, second.value.next)
    else second
  }

  function ParseNameScript(script: Bytes): Option<NameRow> {
    if |script| < 4 || (script[0] != OP_NAME_UPDATE && script[0] != OP_NAME_FIRSTUPDATE) then None
    else
      var first := ReadPushData(script, 1);
      if first.None? then None
      else
        var v := ValuePush(script, script[0], first.value.next);
        if v.None? then None else Some(NameRow(script[0], Ascii(first.value.data), v.value.data))
  }

  // ---------- The push codec ----------

  lemma UInt16RoundTrip(n: nat, s: Bytes, i: nat)
    requires n < 0x1_0000 && i + 2 <= |s| && s[i..i + 2] == UInt16LE(n)
    ensures ReadUInt16LE(s, i) == n
  {
    assert s[i] == s[i..i + 2][0] && s[i + 1] == s[i..i + 2][1];
  }

  lemma UInt32RoundTrip(n: nat, s: Bytes, i: nat)
    requires n < PUSH_LIMIT && i + 4 <= |s| && s[i..i + 4] == UInt32LE(n)
    ensures ReadUInt32LE(s, i) == n
  {
    assert s[i..i + 2] == s[i..i + 4][..2] && s[i + 2..i + 4] == s[i..i + 4][2..];
    UInt16RoundTrip(n % 0x1_0000, s, i);
    UInt16RoundTrip(n / 0x1_0000, s, i + 2);
  }

  /** Reading a header back gives the length it was written for. */
  lemma HeaderRoundTrip(script: Bytes, pos: nat, len: nat)
    requires len < PUSH_LIMIT && pos + |PushHeader(len)| <= |script|
    requires script[pos..pos + |PushHeader(len)|] == PushHeader(len)
    ensures ReadPushData(script, pos) == Slice(script, pos + |PushHeader(len)|, len)
  {
    var h := PushHeader(len);
    assert script[pos] == h[0];
    if len == 0 {
      assert script[pos + 1..pos + 1] == [];
    } else if len < OP_PUSHDATA1 {
    } else if len <= 0xff {
      assert script[pos + 1] == script[pos..pos + 2][1] == h[1];
    } else if len <= 0xffff {
      assert script[pos + 1..pos + 3] == script[pos..pos + 3][1..] == UInt16LE(len);
      UInt16RoundTrip(len, script, pos + 1);
    } else {
      assert script[pos + 1..pos + 5] == script[pos..pos + 5][1..] == UInt32LE(len);
      UInt32RoundTrip(len, script, pos + 1);
    }
  }

  /** Reading inverts pushing, for every data shorter than 2^32, at any position in any script. */
  lemma PushRoundTrip(before: Bytes, data: Bytes, after: Bytes)
    requires |data| < PUSH_LIMIT
    ensures ReadPushData(before + PushData(data) + after, |before|)
         == Some(Push(data, |before| + |PushData(data)|))
  {
    var h := PushHeader(|data|);
    var s := before + (h + data) + after;
    HeaderAt(before, h, data, after);
    HeaderRoundTrip(s, |before|, |data|);
  }

  lemma HeaderAt(before: Bytes, h: Bytes, data: Bytes, after: Bytes)
    ensures var s := before + (h + data) + after;
            && s[|before|..|before| + |h|] == h
            && s[|before| + |h|..|before| + |h| + |data|] == data
  {
  }

  /** No push is a proper prefix of another. */
  lemma PrefixFree(a: Bytes, b: Bytes)
    requires |a| < PUSH_LIMIT && |b| < PUSH_LIMIT && PushData(a) <= PushData(b)
    ensures a == b
  {
    var rest := PushData(b)[|PushData(a)|..];
    assert [] + PushData(a) + rest == PushData(b) == [] + PushData(b) + [];
    PushRoundTrip([], a, rest);
    PushRoundTrip([], b, []);
  }

  /** A successful read stays in bounds, advances, and returns the bytes just before its end. */
  lemma ReadAdvances(script: Bytes, pos: nat)
    requires ReadPushData(script, pos).Some?
    ensures var p := ReadPushData(script, pos).value;
            pos < p.next <= |script| && |p.data| < p.next - pos && script[p.next - |p.data|..p.next] == p.data
  {
  }

  /** The encoder is the shortest: no push that reads to the same data takes fewer bytes. */
  lemma PushIsShortest(script: Bytes, pos: nat)
    requires ReadPushData(script, pos).Some?
    ensures var p := ReadPushData(script, pos).value;
            |p.data| < PUSH_LIMIT && |PushData(p.data)| <= p.next - pos
  {
  }

  /** The four forms of a push's header, its length in little-endian order. */
  ghost predicate IsHeader(h: Bytes, len: nat) {
    || (|h| == 1 && h[0] < 0x4c && h[0] == len)
    || (|h| == 2 && h[0] == 0x4c && h[1] == len)
    || (|h| == 3 && h[0] == 0x4d && h[1] as int + 0x100 * h[2] as int == len)
    || (|h| == 5 && h[0] == 0x4e
        && h[1] as int + 0x100 * h[2] as int + 0x1_0000 * h[3] as int + 0x100_0000 * h[4] as int == len)
  }

  /** The writer writes one of the forms. */
  lemma WritesHeader(len: nat)
    requires len < PUSH_LIMIT
    ensures IsHeader(PushHeader(len), len)
  {
  }

  /** What the reader reads: a header in any of the forms, the shortest or not, and as many bytes as it says
      - all of them, in the script - and nothing else. */
  lemma ReadMeaning(script: Bytes, pos: nat, data: Bytes, next: nat)
    ensures ReadPushData(script, pos) == Some(Push(data, next)) <==>
      exists h: Bytes :: IsHeader(h, |data|) && next == pos + |h| + |data| <= |script| && script[pos..next] == h + data
  {
    if ReadPushData(script, pos) == Some(Push(data, next)) {
      ReadHasHeader(script, pos);
    }
    if h: Bytes :| IsHeader(h, |data|) && next == pos + |h| + |data| <= |script| && script[pos..next] == h + data {
      HeaderIsRead(script, pos, h, data);
    }
  }

  lemma ReadHasHeader(script: Bytes, pos: nat)
    requires ReadPushData(script, pos).Some?
    ensures var p := ReadPushData(script, pos).value;
            exists h: Bytes ::
              IsHeader(h, |p.data|) && p.next == pos + |h| + |p.data| <= |script| && script[pos..p.next] == h + p.data
  {
    var p := ReadPushData(script, pos).value;
    var n := p.next - |p.data| - pos;
    ReadAdvances(script, pos);
    var h := script[pos..pos + n];
    assert forall i | 0 <= i < n :: h[i] == script[pos + i];
    assert script[pos..p.next] == h + script[pos + n..p.next];
    assert IsHeader(h, |p.data|);
  }

  lemma HeaderIsRead(script: Bytes, pos: nat, h: Bytes, data: Bytes)
    requires IsHeader(h, |data|) && pos + |h| + |data| <= |script| && script[pos..pos + |h| + |data|] == h + data
    ensures ReadPushData(script, pos) == Some(Push(data, pos + |h| + |data|))
  {
    var whole := script[pos..pos + |h| + |data|];
    assert forall i | 0 <= i < |h| :: script[pos + i] == whole[i] == h[i];
    assert script[pos + |h|..pos + |h| + |data|] == whole[|h|..] == data;
    assert ReadPushData(script, pos) == Slice(script, pos + |h|, |data|) by {
      assert script[pos] == h[0];
      if |h| == 2 { assert script[pos + 1] == h[1]; }
      if |h| >= 3 { assert script[pos + 1] == h[1] && script[pos + 2] == h[2]; }
      if |h| == 5 { assert script[pos + 3] == h[3] && script[pos + 4] == h[4]; }
      if |h| == 1 && h[0] == 0 { assert script[pos + 1..pos + 1] == []; }
    }
  }

  // ---------- Name scripts ----------

  /** Different names have different index scripts, neither a prefix of the other. */
  lemma IndexScriptInjective(a: Bytes, b: Bytes)
    requires |a| < PUSH_LIMIT && |b| < PUSH_LIMIT && BuildNameIndexScript(a) <= BuildNameIndexScript(b)
    ensures a == b
  {
    var tail := PushData([]) + [OP_2DROP, OP_DROP, OP_RETURN];
    var extra := BuildNameIndexScript(b)[|BuildNameIndexScript(a)|..];
    assert BuildNameIndexScript(a) == [OP_NAME_UPDATE] + PushData(a) + tail;
    assert BuildNameIndexScript(b) == [OP_NAME_UPDATE] + PushData(b) + tail;
    assert BuildNameIndexScript(b) == [OP_NAME_UPDATE] + PushData(a) + (tail + extra);
    PushRoundTrip([OP_NAME_UPDATE], a, tail + extra);
    PushRoundTrip([OP_NAME_UPDATE], b, tail);
  }

  predicate SevenBit(bytes: Bytes) {
    forall b | b in bytes :: b < 128
  }

  /** The name survives its decoding exactly when all its bytes are 7-bit. */
  lemma AsciiExact(bytes: Bytes)
    ensures Ascii(bytes) == bytes <==> SevenBit(bytes)
  {
    if SevenBit(bytes) {
      assert forall i | 0 <= i < |bytes| :: bytes[i] in bytes;
    } else {
      var b :| b in bytes && b >= 128;
      var i :| 0 <= i < |bytes| && bytes[i] == b;
      assert Ascii(bytes)[i] != bytes[i];
    }
  }

  lemma Regroup(a: Bytes, b: Bytes, c: Bytes, d: Bytes)
    ensures a + b + c + d == a + b + (c + d)
  {
  }

  /** The first two pushes of a script, behind its operation byte. */
  lemma TwoPushes(op: Byte, name: Bytes, second: Bytes, after: Bytes) returns (at: nat)
    requires |name| < PUSH_LIMIT && |second| < PUSH_LIMIT
    ensures var s := [op] + PushData(name) + PushData(second) + after;
            && at == 1 + |PushData(name)|
            && ReadPushData(s, 1) == Some(Push(name, at))
            && ReadPushData(s, at) == Some(Push(second, at + |PushData(second)|))
  {
    at := 1 + |PushData(name)|;
    Regroup([op], PushData(name), PushData(second), after);
    PushRoundTrip([op], name, PushData(second) + after);
    PushRoundTrip([op] + PushData(name), second, after);
  }

  /** UPDATE scripts parse to their name and value, whatever follows them. */
  lemma UpdateRoundTrip(name: Bytes, value: Bytes, after: Bytes)
    requires |name| < PUSH_LIMIT && |value| < PUSH_LIMIT
    requires |PushData(name) + PushData(value) + after| >= 3
    ensures ParseNameScript([OP_NAME_UPDATE] + PushData(name) + PushData(value) + after)
         == Some(NameRow(OP_NAME_UPDATE, Ascii(name), value))
  {
    var at := TwoPushes(OP_NAME_UPDATE, name, value, after);
  }

  /** FIRSTUPDATE scripts with a 20-byte rand parse to their name and value. */
  lemma FirstUpdateRoundTrip(name: Bytes, rand: Bytes, value: Bytes, after: Bytes)
    requires |name| < PUSH_LIMIT && |value| < PUSH_LIMIT && |rand| == 20
    ensures ParseNameScript([OP_NAME_FIRSTUPDATE] + PushData(name) + PushData(rand) + PushData(value) + after)
         == Some(NameRow(OP_NAME_FIRSTUPDATE, Ascii(name), value))
  {
    var s := [OP_NAME_FIRSTUPDATE] + PushData(name) + PushData(rand) + PushData(value) + after;
    assert s == [OP_NAME_FIRSTUPDATE] + PushData(name) + PushData(rand) + (PushData(value) + after);
    var at := TwoPushes(OP_NAME_FIRSTUPDATE, name, rand, PushData(value) + after);
    PushRoundTrip([OP_NAME_FIRSTUPDATE] + PushData(name) + PushData(rand), value, after);
  }

  /** With any other second push a FIRSTUPDATE script is read as an UPDATE: the second push is the value. */
  lemma FirstUpdateFallback(name: Bytes, value: Bytes, after: Bytes)
    requires |name| < PUSH_LIMIT && |value| < PUSH_LIMIT && |value| != 20
    requires |PushData(name) + PushData(value) + after| >= 3
    ensures ParseNameScript([OP_NAME_FIRSTUPDATE] + PushData(name) + PushData(value) + after)
         == Some(NameRow(OP_NAME_FIRSTUPDATE, Ascii(name), value))
  {
    var at := TwoPushes(OP_NAME_FIRSTUPDATE, name, value, after);
  }

  /** What is no name script: anything shorter than four bytes or with another first byte, a name without a
      value, and a FIRSTUPDATE with a 20-byte rand and no value behind it. */
  lemma NoNameScript(script: Bytes, name: Bytes, rand: Bytes, op: Byte)
    requires |name| < PUSH_LIMIT && |rand| == 20
    ensures |script| < 4 || (script[0] != 0x53 && script[0] != 0x52) ==> ParseNameScript(script) == None
    ensures ParseNameScript([op] + PushData(name)) == None
    ensures ParseNameScript([0x52] + PushData(name) + PushData(rand)) == None
  {
    assert [op] + PushData(name) == [op] + PushData(name) + [];
    PushRoundTrip([op], name, []);
    var at := TwoPushes(0x52, name, rand, []);
    assert [0x52] + PushData(name) + PushData(rand) + [] == [0x52] + PushData(name) + PushData(rand);
  }

  /** The index script byte by byte: the operation, the name's push, an empty push, and three operations. */
  lemma IndexScriptBytes(name: Bytes)
    requires |name| < PUSH_LIMIT
    ensures BuildNameIndexScript(name) == [0x53] + PushData(name) + [0x00, 0x6d, 0x75, 0x6a]
  {
    assert PushData([]) == [0x00];
  }

  /** The index script of a name, read as an output, is an update of that name to the empty value. */
  lemma IndexScriptParses(name: Bytes)
    requires |name| < PUSH_LIMIT
    ensures ParseNameScript(BuildNameIndexScript(name)) == Some(NameRow(OP_NAME_UPDATE, Ascii(name), []))
  {
    UpdateRoundTrip(name, [], [OP_2DROP, OP_DROP, OP_RETURN]);
  }
}
