/**
 Recovery reads a segment line by line. This module is about the bytes: what the scanner
 makes of a file to which newline-terminated records were appended, with or without a torn
 line in front of them, and with records longer than the scanner's buffer.
 */
module LineScan {
  import opened Prelude

  const NEWLINE: Byte := 10
  const MAX_LINE := 0x40_0000 // the scanner's buffer, 4 MiB

  function FirstNewline(b: seq<Byte>): (k: nat)
    ensures k <= |b|
    ensures k < |b| ==> b[k] == NEWLINE
    ensures forall i :: 0 <= i < k ==> b[i] != NEWLINE
  {
    if b == [] || b[0] == NEWLINE then 0 else 1 + FirstNewline(b[1..])
  }

  /** All lines, the unterminated last one included, empty ones too. */
  function Split(b: seq<Byte>): seq<seq<Byte>>
    decreases |b|
  {
    if b == [] then []
    else
      var k := FirstNewline(b);
      if k == |b| then [b] else [b[..k]] + Split(b[k + 1..])
  }

  function NonEmpty(ls: seq<seq<Byte>>): seq<seq<Byte>>
  {
    if ls == [] then []
    else (if ls[0] == [] then [] else [ls[0]]) + NonEmpty(ls[1..])
  }

  function Lines(b: seq<Byte>): seq<seq<Byte>> { NonEmpty(Split(b)) }

  /** The lines handed to the decoder, or None when some line does not fit the buffer. */
  function Scan(b: seq<Byte>): Option<seq<seq<Byte>>>
  {
    if forall l :: l in Split(b) ==> |l| < MAX_LINE then Some(Lines(b)) else None
  }

  predicate EndsInNewline(b: seq<Byte>) { b == [] || b[|b| - 1] == NEWLINE }

  predicate IsRecord(r: seq<Byte>) { r != [] && NEWLINE !in r }

  function Encode(rs: seq<seq<Byte>>): seq<Byte>
  {
    if rs == [] then [] else rs[0] + [NEWLINE] + Encode(rs[1..])
  }

  lemma {:induction false} SplitAppend(t: seq<Byte>, u: seq<Byte>)
    requires EndsInNewline(t)
    ensures Split(t + u) == Split(t) + Split(u)
    decreases |t|
  {
    if t == [] {
      assert t + u == u;
    } else {
      var k := FirstNewline(t);
      FirstNewlineExtends(t, u);
      assert (t + u)[..k] == t[..k];
      assert (t + u)[k + 1..] == t[k + 1..] + u;
      SplitAppend(t[k + 1..], u);
    }
  }

  lemma {:induction false} FirstNewlineExtends(t: seq<Byte>, u: seq<Byte>)
    requires t != [] && (FirstNewline(t) < |t| || EndsInNewline(t))
    ensures FirstNewline(t) < |t| && FirstNewline(t + u) == FirstNewline(t)
  {
    var k := FirstNewline(t);
    assert k < |t|;
    var m := FirstNewline(t + u);
    assert (t + u)[k] == NEWLINE;
    assert m <= k;
  }

  lemma SplitRecord(r: seq<Byte>)
    requires NEWLINE !in r
    ensures Split(r + [NEWLINE]) == [r]
  {
    var b := r + [NEWLINE];
    forall i | 0 <= i < |r| ensures b[i] != NEWLINE { assert b[i] in r; }
    assert b[|r|] == NEWLINE;
    assert FirstNewline(b) == |r|;
    assert b[..|r|] == r && b[|r| + 1..] == [];
  }

  /** Where the unterminated last line of a file starts. */
  function TornStart(t: seq<Byte>): (k: nat)
    ensures k <= |t| && EndsInNewline(t[..k]) && NEWLINE !in t[k..]
  {
    if EndsInNewline(t) then |t|
    else
      var n := |t| - 1;
      var k := TornStart(t[..n]);
      assert t[..n][..k] == t[..k] && t[k..] == t[..n][k..] + [t[n]];
      k
  }

  /** In a torn file the last line is the torn one, and what follows is glued to it. */
  lemma SplitTorn(t: seq<Byte>, r: seq<Byte>) returns (whole: seq<seq<Byte>>, torn: seq<Byte>)
    requires !EndsInNewline(t) && NEWLINE !in r
    ensures torn != []
    ensures Split(t) == whole + [torn]
    ensures Split(t + r + [NEWLINE]) == whole + [torn + r]
  {
    var k := TornStart(t);
    torn := t[k..];
    whole := Split(t[..k]);
    assert t == t[..k] + torn;
    SplitAppend(t[..k], torn);
    assert FirstNewline(torn) == |torn|;
    assert t + r + [NEWLINE] == t[..k] + (torn + r + [NEWLINE]);
    SplitAppend(t[..k], torn + r + [NEWLINE]);
    SplitRecord(torn + r);
  }

  lemma {:induction false} NonEmptyAppend(a: seq<seq<Byte>>, b: seq<seq<Byte>>)
    ensures NonEmpty(a + b) == NonEmpty(a) + NonEmpty(b)
  {
    if a == [] {
      assert a + b == b;
    } else {
      assert (a + b)[1..] == a[1..] + b;
      NonEmptyAppend(a[1..], b);
    }
  }

  /** An appended record is read back as a line of its own exactly when no torn line precedes it. */
  lemma RecordReadBackIffAligned(t: seq<Byte>, r: seq<Byte>)
    requires IsRecord(r)
    ensures Lines(t + r + [NEWLINE]) == Lines(t) + [r] <==> EndsInNewline(t)
  {
    if EndsInNewline(t) {
      assert t + r + [NEWLINE] == t + (r + [NEWLINE]);
      SplitAppend(t, r + [NEWLINE]);
      SplitRecord(r);
      NonEmptyAppend(Split(t), [r]);
      assert NonEmpty([r]) == [r];
    } else {
      var whole, torn := SplitTorn(t, r);
      NonEmptyAppend(whole, [torn]);
      NonEmptyAppend(whole, [torn + r]);
      assert |NonEmpty([torn])| == 1 && |NonEmpty([torn + r])| == 1;
    }
  }

  /** A whole batch behind a clean tail is read back line by line, in order. */
  lemma {:induction false} BatchReadBack(t: seq<Byte>, rs: seq<seq<Byte>>)
    requires EndsInNewline(t) && forall r :: r in rs ==> IsRecord(r)
    ensures Lines(t + Encode(rs)) == Lines(t) + rs
    decreases |rs|
  {
    if rs == [] {
      assert t + Encode(rs) == t;
    } else {
      var u := t + rs[0] + [NEWLINE];
      assert rs[0] in rs && forall r :: r in rs[1..] ==> r in rs;
      RecordReadBackIffAligned(t, rs[0]);
      hide Lines;
      BatchReadBack(u, rs[1..]);
      EncodeStep(t, rs);
      assert Lines(t) + [rs[0]] + rs[1..] == Lines(t) + rs;
    }
  }

  lemma EncodeStep(t: seq<Byte>, rs: seq<seq<Byte>>)
    requires rs != []
    ensures t + rs[0] + [NEWLINE] + Encode(rs[1..]) == t + Encode(rs)
  {
  }

  /**
   One record as long as the scanner's buffer makes the whole recovery fail, together with
   everything that was readable before it; a shorter one is simply added.
   */
  lemma LongRecordBlocksRecovery(t: seq<Byte>, r: seq<Byte>)
    requires IsRecord(r) && EndsInNewline(t) && Scan(t).Some?
    ensures Scan(t + r + [NEWLINE]) == if |r| < MAX_LINE then Some(Scan(t).value + [r]) else None
  {
    assert t + r + [NEWLINE] == t + (r + [NEWLINE]);
    SplitAppend(t, r + [NEWLINE]);
    SplitRecord(r);
    RecordReadBackIffAligned(t, r);
    assert r in Split(t) + [r];
    assert forall l :: l in Split(t) + [r] ==> l in Split(t) || l == r;
    assert forall l :: l in Split(t) ==> l in Split(t) + [r];
  }
}
