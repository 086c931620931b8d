/**
 Removal of echoed terminal query responses from replayed scrollback (internal/grpc/detachable.go).
 The scanners are proved against a grammar that says which slices data[i..e] are noise, in the terms of
 section 5.4 (control sequences) and section 5.6 (control strings) of ECMA-48.
 */
module QueryResponses {
  import opened Bytes

  const BEL: byte := 0x07
  const CR: byte := 0x0d
  const ESC: byte := 0x1b
  const SPACE: byte := 0x20
  const HASH: byte := 0x23
  const DOLLAR: byte := 0x24
  const PERCENT: byte := 0x25
  const DIGIT_0: byte := 0x30
  const DIGIT_1: byte := 0x31
  const SEMICOLON: byte := 0x3b
  const UPPER_P: byte := 0x50
  const UPPER_R: byte := 0x52
  const LEFT_BRACKET: byte := 0x5b
  const RIGHT_BRACKET: byte := 0x5d
  const LOWER_C: byte := 0x63
  const LOWER_M: byte := 0x6d
  const LOWER_Y: byte := 0x79

  // The grammar. Each predicate says that data[i..e] is one whole phrase.

  predicate IsParameter(b: byte) { 0x30 <= b <= 0x3f }

  /** A control sequence without intermediate bytes: ESC [ parameters final. */
  predicate ControlSequence(data: seq<byte>, i: nat, e: nat, final: byte) {
    && i + 3 <= e <= |data|
    && data[i] == ESC && data[i + 1] == LEFT_BRACKET
    && (forall k | i + 2 <= k < e - 1 :: IsParameter(data[k]))
    && data[e - 1] == final
  }

  /** A cursor position report or a device attributes response. */
  predicate CsiResponse(data: seq<byte>, i: nat, e: nat) {
    ControlSequence(data, i, e, UPPER_R) || ControlSequence(data, i, e, LOWER_C)
  }

  predicate Sgr(data: seq<byte>, i: nat, e: nat) {
    ControlSequence(data, i, e, LOWER_M)
  }

  ghost predicate SgrRun(data: seq<byte>, i: nat, e: nat)
    decreases e - i
  {
    i == e || exists m | i < m <= e :: Sgr(data, i, m) && SgrRun(data, m, e)
  }

  /** A prompt end-of-line mark: styles, % or #, styles, padding, carriage return. */
  ghost predicate EolMarkParts(data: seq<byte>, i: nat, a: nat, b: nat, e: nat) {
    && i < a < b < e <= |data|
    && SgrRun(data, i, a)
    && (data[a] == PERCENT || data[a] == HASH)
    && SgrRun(data, a + 1, b)
    && (forall k | b <= k < e - 1 :: data[k] == SPACE)
    && data[e - 1] == CR
  }

  ghost predicate EolMark(data: seq<byte>, i: nat, e: nat) {
    exists a: nat, b: nat :: EolMarkParts(data, i, a, b, e)
  }

  /** A string terminator begins at k: BEL, or ESC \. */
  predicate TerminatorAt(data: seq<byte>, k: nat)
    requires k < |data|
  {
    data[k] == BEL || (data[k] == ESC && k + 1 < |data| && data[k + 1] == BACKSLASH)
  }

  function TerminatorEnd(data: seq<byte>, k: nat): nat
    requires k < |data|
  {
    if data[k] == BEL then k + 1 else k + 2
  }

  /** The body of a control string from j: up to and including the first terminator, and no further. */
  ghost predicate EndsAtTerminator(data: seq<byte>, j: nat, e: nat) {
    exists k: nat :: FirstTerminator(data, j, k) && e == TerminatorEnd(data, k)
  }

  predicate FirstTerminator(data: seq<byte>, j: nat, k: nat) {
    && j <= k < |data|
    && TerminatorAt(data, k)
    && forall x | j <= x < k :: !TerminatorAt(data, x)
  }

  predicate IsColourHead(data: seq<byte>, i: nat) {
    && i + 5 <= |data|
    && data[i] == ESC && data[i + 1] == RIGHT_BRACKET
    && data[i + 2] == DIGIT_1 && (data[i + 3] == DIGIT_0 || data[i + 3] == DIGIT_1) && data[i + 4] == SEMICOLON
  }

  /** An OSC 10 or OSC 11 colour report. */
  ghost predicate OscColour(data: seq<byte>, i: nat, e: nat) {
    IsColourHead(data, i) && EndsAtTerminator(data, i + 2, e)
  }

  ghost predicate DeviceControl(data: seq<byte>, i: nat, e: nat) {
    && i + 2 <= |data|
    && data[i] == ESC && data[i + 1] == UPPER_P
    && EndsAtTerminator(data, i + 2, e)
  }

  ghost predicate ControlString(data: seq<byte>, i: nat, e: nat) {
    OscColour(data, i, e) || DeviceControl(data, i, e)
  }

  ghost predicate Noise(data: seq<byte>, i: nat, e: nat) {
    && i < e <= |data|
    && (CsiResponse(data, i, e) || EolMark(data, i, e) || OscColour(data, i, e) || DeviceControl(data, i, e))
  }

  ghost predicate NoiseAt(data: seq<byte>, i: nat) {
    exists e: nat :: Noise(data, i, e)
  }

  /** The end of the noise phrase at i; NoiseUnique says there is only one. */
  ghost function NoiseEnd(data: seq<byte>, i: nat): (e: nat)
    requires NoiseAt(data, i)
    ensures Noise(data, i, e) && i < e <= |data|
  {
    var e: nat :| Noise(data, i, e); e
  }

  /** The leftmost reading: from each position reached, drop the noise phrase there, else keep one byte. */
  ghost function Kept(data: seq<byte>, i: nat): seq<byte>
    requires i <= |data|
    decreases |data| - i
  {
    if i == |data| then []
    else if NoiseAt(data, i) then Kept(data, NoiseEnd(data, i))
    else [data[i]] + Kept(data, i + 1)
  }

  // The grammar is unambiguous.

  /** A control sequence ends with the first byte that is no parameter. */
  lemma ControlSequenceEnds(data: seq<byte>, i: nat, e: nat, f: byte, j: nat)
    requires ControlSequence(data, i, e, f) && !IsParameter(f)
    requires i + 2 <= j < |data| && !IsParameter(data[j])
    requires forall k | i + 2 <= k < j :: IsParameter(data[k])
    ensures e == j + 1
  {
  }

  lemma ControlSequenceUnique(data: seq<byte>, i: nat, e: nat, f: byte, e': nat, f': byte)
    requires ControlSequence(data, i, e, f) && ControlSequence(data, i, e', f')
    requires !IsParameter(f) && !IsParameter(f')
    ensures e == e' && f == f'
  {
    ControlSequenceEnds(data, i, e, f, e' - 1);
  }

  lemma {:induction false} SgrRunEndsOnce(data: seq<byte>, i: nat, a: nat, b: nat)
    requires SgrRun(data, i, a) && SgrRun(data, i, b)
    requires forall e: nat :: !Sgr(data, a, e)
    requires forall e: nat :: !Sgr(data, b, e)
    ensures a == b
    decreases a - i
  {
    if i != a && i != b {
      var m: nat :| i < m <= a && Sgr(data, i, m) && SgrRun(data, m, a);
      var n: nat :| i < n <= b && Sgr(data, i, n) && SgrRun(data, n, b);
      ControlSequenceUnique(data, i, m, LOWER_M, n, LOWER_M);
      SgrRunEndsOnce(data, m, a, b);
    }
  }

  lemma {:induction false} SgrRunExtends(data: seq<byte>, i: nat, a: nat, b: nat)
    requires i <= a < b && SgrRun(data, i, a) && Sgr(data, a, b)
    ensures SgrRun(data, i, b)
    decreases a - i
  {
    if i == a {
      assert SgrRun(data, b, b);
    } else {
      var m: nat :| i < m <= a && Sgr(data, i, m) && SgrRun(data, m, a);
      SgrRunExtends(data, m, a, b);
    }
  }

  /** A run of styles starts with a style, and a style starts with ESC [. */
  lemma EolMarkStartsWithSgr(data: seq<byte>, i: nat, e: nat)
    requires EolMark(data, i, e)
    ensures exists m: nat :: Sgr(data, i, m)
  {
    var a: nat, b: nat :| EolMarkParts(data, i, a, b, e);
    var m: nat :| i < m <= a && Sgr(data, i, m) && SgrRun(data, m, a);
  }

  /** What a scan that stops at a after the opening styles and at b after the closing ones knows of any mark. */
  lemma EolMarkSplitsOnce(data: seq<byte>, i: nat, e: nat, a: nat, b: nat, a': nat, b': nat)
    requires EolMarkParts(data, i, a', b', e)
    requires SgrRun(data, i, a) && forall x: nat :: !Sgr(data, a, x)
    ensures a == a'
    ensures SgrRun(data, a + 1, b) && (forall x: nat :: !Sgr(data, b, x)) ==> b == b'
  {
    SgrRunEndsOnce(data, i, a, a');
    if SgrRun(data, a + 1, b) && forall x: nat :: !Sgr(data, b, x) {
      SgrRunEndsOnce(data, a + 1, b, b');
    }
  }

  lemma EolMarkUnique(data: seq<byte>, i: nat, e: nat, e': nat)
    requires EolMark(data, i, e) && EolMark(data, i, e')
    ensures e == e'
  {
    var a: nat, b: nat :| EolMarkParts(data, i, a, b, e);
    var a': nat, b': nat :| EolMarkParts(data, i, a', b', e');
    EolMarkSplitsOnce(data, i, e', a, b, a', b');
  }

  lemma NoiseUnique(data: seq<byte>, i: nat, e: nat, e': nat)
    requires Noise(data, i, e) && Noise(data, i, e')
    ensures e == e'
  {
    if data[i + 1] == LEFT_BRACKET {
      if EolMark(data, i, e) && EolMark(data, i, e') {
        EolMarkUnique(data, i, e, e');
      } else if EolMark(data, i, e) {
        EolMarkStartsWithSgr(data, i, e);
        CsiResponseIsNoSgr(data, i, e');
      } else if EolMark(data, i, e') {
        EolMarkStartsWithSgr(data, i, e');
        CsiResponseIsNoSgr(data, i, e);
      } else {
        CsiResponseUnique(data, i, e, e');
      }
    }
  }

  lemma CsiResponseUnique(data: seq<byte>, i: nat, e: nat, e': nat)
    requires CsiResponse(data, i, e) && CsiResponse(data, i, e')
    ensures e == e'
  {
    ControlSequenceUnique(data, i, e, data[e - 1], e', data[e' - 1]);
  }

  lemma CsiResponseIsNoSgr(data: seq<byte>, i: nat, e: nat)
    requires CsiResponse(data, i, e)
    ensures forall m: nat :: !Sgr(data, i, m)
  {
    forall m: nat | Sgr(data, i, m)
      ensures false
    {
      ControlSequenceUnique(data, i, e, data[e - 1], m, LOWER_M);
    }
  }

  // The scanners.

  method ScanCSIResponse(data: seq<byte>, i: nat) returns (end: nat, ok: bool)
    requires i + 1 < |data| && data[i] == ESC && data[i + 1] == LEFT_BRACKET
    ensures ok ==> CsiResponse(data, i, end)
    ensures !ok ==> forall e: nat :: !CsiResponse(data, i, e)
  {
    var j := i + 2;
    if j < |data| && (data[j] == 0x3f || data[j] == 0x3e || data[j] == 0x3c) {
      j := j + 1;
    }
    while j < |data| && (0x30 <= data[j] <= 0x3f || data[j] == SEMICOLON)
      invariant i + 2 <= j <= |data|
      invariant forall k | i + 2 <= k < j :: IsParameter(data[k])
    {
      j := j + 1;
    }
    if j >= |data| {
      return i, false;
    }
    if data[j] == UPPER_R || data[j] == LOWER_C {
      return j + 1, true;
    }
    if data[j] == LOWER_Y && j > i + 2 && data[j - 1] == DOLLAR {
      assert false;  // data[j - 1] was consumed as a parameter byte, which '$' is not
    }
    forall e: nat | CsiResponse(data, i, e)
      ensures false
    {
      ControlSequenceEnds(data, i, e, data[e - 1], j);
    }
    return i, false;
  }

  method ScanSGR(data: seq<byte>, j: nat) returns (end: nat, ok: bool)
    ensures ok ==> Sgr(data, j, end)
    ensures !ok ==> end == j && forall e: nat :: !Sgr(data, j, e)
  {
    if j + 1 >= |data| || data[j] != ESC || data[j + 1] != LEFT_BRACKET {
      return j, false;
    }
    var k := j + 2;
    while k < |data| && (0x30 <= data[k] <= 0x3f || data[k] == SEMICOLON)
      invariant j + 2 <= k <= |data|
      invariant forall x | j + 2 <= x < k :: IsParameter(data[x])
    {
      k := k + 1;
    }
    if k >= |data| {
      return j, false;
    }
    if data[k] != LOWER_M {
      forall e: nat | Sgr(data, j, e)
        ensures false
      {
        ControlSequenceEnds(data, j, e, LOWER_M, k);
      }
      return j, false;
    }
    return k + 1, true;
  }

  method ScanSGRs(data: seq<byte>, i: nat) returns (end: nat, count: nat)
    requires i <= |data|
    ensures i <= end <= |data| && SgrRun(data, i, end) && (count == 0 <==> end == i)
    ensures forall e: nat :: !Sgr(data, end, e)
  {
    end, count := i, 0;
    while true
      invariant i <= end <= |data| && SgrRun(data, i, end) && (count == 0 <==> end == i)
      decreases |data| - end
    {
      var next, sgrOK := ScanSGR(data, end);
      if !sgrOK {
        break;
      }
      SgrRunExtends(data, i, end, next);
      end := next;
      count := count + 1;
    }
  }

  method ScanEOLMark(data: seq<byte>, i: nat) returns (end: nat, ok: bool)
    requires i <= |data|
    ensures ok ==> EolMark(data, i, end)
    ensures !ok ==> forall e: nat :: !EolMark(data, i, e)
  {
    var j, openers := ScanSGRs(data, i);
    ghost var a := j;
    if openers == 0 {
      NoEolMark(data, i, a, a);
      return i, false;
    }
    if j >= |data| || (data[j] != PERCENT && data[j] != HASH) {
      NoEolMark(data, i, a, a);
      return i, false;
    }
    j := j + 1;
    var closed;
    j, closed := ScanSGRs(data, j);
    ghost var b := j;
    while j < |data| && data[j] == SPACE
      invariant b <= j <= |data|
      invariant forall k | b <= k < j :: data[k] == SPACE
    {
      j := j + 1;
    }
    if j >= |data| || data[j] != CR {
      forall e: nat, a': nat, b': nat | EolMarkParts(data, i, a', b', e)
        ensures false
      {
        EolMarkSplitsOnce(data, i, e, a, b, a', b');
      }
      return i, false;
    }
    j := j + 1;
    assert EolMarkParts(data, i, a, b, j);
    return j, true;
  }

  method ScanSTTerminated(data: seq<byte>, from: nat) returns (end: nat, ok: bool)
    requires from <= |data|
    ensures ok ==> EndsAtTerminator(data, from, end)
    ensures !ok ==> forall e: nat :: !EndsAtTerminator(data, from, e)
  {
    var j := from;
    while j < |data|
      invariant from <= j <= |data|
      invariant forall x | from <= x < j :: !TerminatorAt(data, x)
    {
      if data[j] == BEL {
        assert FirstTerminator(data, from, j);
        return j + 1, true;
      }
      if data[j] == ESC && j + 1 < |data| && data[j + 1] == BACKSLASH {
        assert FirstTerminator(data, from, j);
        return j + 2, true;
      }
      j := j + 1;
    }
    return 0, false;
  }

  method ScanOSCResponse(data: seq<byte>, i: nat) returns (end: nat, ok: bool)
    requires i + 1 < |data| && data[i] == ESC && data[i + 1] == RIGHT_BRACKET
    ensures ok ==> OscColour(data, i, end)
    ensures !ok ==> forall e: nat :: !OscColour(data, i, e)
  {
    var j := i + 2;
    if j + 3 > |data| {
      return i, false;
    }
    if data[j] != DIGIT_1 || (data[j + 1] != DIGIT_0 && data[j + 1] != DIGIT_1) || data[j + 2] != SEMICOLON {
      return i, false;
    }
    end, ok := ScanSTTerminated(data, j);
  }

  /** The switch on the byte after ESC: the end of the noise phrase at i, if there is one. */
  method ScanNoise(data: seq<byte>, i: nat) returns (end: nat, ok: bool)
    requires i + 1 < |data| && data[i] == ESC
    ensures ok ==> Noise(data, i, end)
    ensures !ok ==> !NoiseAt(data, i)
  {
    end, ok := i, false;
    if data[i + 1] == LEFT_BRACKET {
      end, ok := ScanCSIResponse(data, i);
      if !ok {
        end, ok := ScanEOLMark(data, i);
      }
    } else if data[i + 1] == RIGHT_BRACKET {
      end, ok := ScanOSCResponse(data, i);
      EolMarkNeedsBracket(data, i);
    } else if data[i + 1] == UPPER_P {
      end, ok := ScanSTTerminated(data, i + 2);
      EolMarkNeedsBracket(data, i);
    } else {
      EolMarkNeedsBracket(data, i);
    }
  }

  method StripTerminalQueryResponses(data: seq<byte>) returns (out: seq<byte>)
    ensures out == Kept(data, 0)
  {
    if |data| == 0 {
      return data;
    }
    out := [];
    var i := 0;
    while i < |data|
      invariant i <= |data|
      invariant out + Kept(data, i) == Kept(data, 0)
      decreases |data| - i
    {
      if data[i] != ESC || i + 1 >= |data| {
        EolMarkNeedsBracket(data, i);
        KeepsByte(data, i, out);
        out := out + [data[i]];
        i := i + 1;
        continue;
      }
      var end, ok := ScanNoise(data, i);
      if ok {
        DropsNoise(data, i, end);
        i := end;
      } else {
        KeepsByte(data, i, out);
        out := out + [data[i]];
        i := i + 1;
      }
    }
  }

  lemma NoEolMark(data: seq<byte>, i: nat, a: nat, b: nat)
    requires SgrRun(data, i, a) && forall x: nat :: !Sgr(data, a, x)
    requires a == i || a >= |data| || (data[a] != PERCENT && data[a] != HASH)
    ensures forall e: nat :: !EolMark(data, i, e)
  {
    forall e: nat, a': nat, b': nat | EolMarkParts(data, i, a', b', e)
      ensures false
    {
      EolMarkSplitsOnce(data, i, e, a, b, a', b');
    }
  }

  lemma EolMarkNeedsBracket(data: seq<byte>, i: nat)
    requires i + 1 >= |data| || data[i] != ESC || data[i + 1] != LEFT_BRACKET
    ensures forall e: nat :: !EolMark(data, i, e)
  {
    forall e: nat | EolMark(data, i, e)
      ensures false
    {
      EolMarkStartsWithSgr(data, i, e);
    }
  }

  lemma DropsNoise(data: seq<byte>, i: nat, e: nat)
    requires Noise(data, i, e)
    ensures Kept(data, i) == Kept(data, e)
  {
    NoiseUnique(data, i, NoiseEnd(data, i), e);
  }

  lemma KeepsByte(data: seq<byte>, i: nat, out: seq<byte>)
    requires i < |data| && !NoiseAt(data, i)
    ensures out + Kept(data, i) == out + [data[i]] + Kept(data, i + 1)
  {
  }

  // What the leftmost reading means.

  datatype Segment = Keep(b: byte) | Drop(slice: seq<byte>)

  function TextOf(s: Segment): seq<byte> {
    if s.Keep? then [s.b] else s.slice
  }

  function OutputOf(s: Segment): seq<byte> {
    if s.Keep? then [s.b] else []
  }

  function Joined(segments: seq<Segment>): seq<byte> {
    if segments == [] then [] else TextOf(segments[0]) + Joined(segments[1..])
  }

  function KeptOf(segments: seq<Segment>): seq<byte> {
    if segments == [] then []
    else OutputOf(segments[0]) + KeptOf(segments[1..])
  }

  ghost predicate OnlyNoiseDropped(segments: seq<Segment>) {
    forall s | s in segments && s.Drop? :: Noise(s.slice, 0, |s.slice|)
  }

  lemma Consing(s: Segment, rest: seq<Segment>)
    ensures Joined([s] + rest) == TextOf(s) + Joined(rest)
    ensures KeptOf([s] + rest) == OutputOf(s) + KeptOf(rest)
    ensures OnlyNoiseDropped(rest) && (s.Drop? ==> Noise(s.slice, 0, |s.slice|)) ==> OnlyNoiseDropped([s] + rest)
  {
    assert ([s] + rest)[1..] == rest;
  }

  lemma SgrRunOfSlice(data: seq<byte>, i: nat, a: nat, lo: nat, hi: nat)
    requires lo <= i <= a <= hi <= |data| && SgrRun(data, i, a)
    ensures SgrRun(data[lo..hi], i - lo, a - lo)
    decreases a - i
  {
    if i != a {
      var m: nat :| i < m <= a && Sgr(data, i, m) && SgrRun(data, m, a);
      SgrRunOfSlice(data, m, a, lo, hi);
      assert Sgr(data[lo..hi], i - lo, m - lo);
    }
  }

  lemma TerminatorOfSlice(data: seq<byte>, i: nat, e: nat)
    requires i + 2 <= e <= |data| && EndsAtTerminator(data, i + 2, e)
    ensures EndsAtTerminator(data[i..e], 2, e - i)
  {
    var k: nat :| FirstTerminator(data, i + 2, k) && e == TerminatorEnd(data, k);
    var s := data[i..e];
    forall x | 2 <= x < k - i
      ensures !TerminatorAt(s, x)
    {
      assert !TerminatorAt(data, x + i);
    }
    assert FirstTerminator(s, 2, k - i);
  }

  lemma EolMarkOfSlice(data: seq<byte>, i: nat, e: nat)
    requires EolMark(data, i, e)
    ensures EolMark(data[i..e], 0, e - i)
  {
    var a: nat, b: nat :| EolMarkParts(data, i, a, b, e);
    SgrRunOfSlice(data, i, a, i, e);
    SgrRunOfSlice(data, a + 1, b, i, e);
    hide SgrRun;
    assert EolMarkParts(data[i..e], 0, a - i, b - i, e - i);
  }

  lemma ControlStringOfSlice(data: seq<byte>, i: nat, e: nat)
    requires i < e <= |data| && ControlString(data, i, e)
    ensures ControlString(data[i..e], 0, e - i)
  {
    var k: nat :| FirstTerminator(data, i + 2, k) && e == TerminatorEnd(data, k);
    assert e <= |data| && i + 3 <= e && (OscColour(data, i, e) ==> i + 5 <= e);
    hide EndsAtTerminator, FirstTerminator;
    TerminatorOfSlice(data, i, e);
  }

  lemma CsiResponseOfSlice(data: seq<byte>, i: nat, e: nat)
    requires CsiResponse(data, i, e)
    ensures CsiResponse(data[i..e], 0, e - i)
  {
  }

  /** A dropped slice is noise by itself, whatever surrounds it. */
  lemma NoiseOfSlice(data: seq<byte>, i: nat, e: nat)
    requires Noise(data, i, e)
    ensures Noise(data[i..e], 0, e - i)
  {
    hide EolMark, CsiResponse, OscColour, DeviceControl;
    if EolMark(data, i, e) {
      EolMarkOfSlice(data, i, e);
    } else if CsiResponse(data, i, e) {
      CsiResponseOfSlice(data, i, e);
    } else {
      ControlStringOfSlice(data, i, e);
    }
  }

  /** The slices the leftmost reading cuts data[i..] into. */
  ghost function Segments(data: seq<byte>, i: nat): seq<Segment>
    requires i <= |data|
    decreases |data| - i
  {
    if i == |data| then []
    else if NoiseAt(data, i) then
      var e := NoiseEnd(data, i);
      [Drop(data[i..e])] + Segments(data, e)
    else
      [Keep(data[i])] + Segments(data, i + 1)
  }

  lemma SegmentsUnfold(data: seq<byte>, i: nat)
    requires i < |data|
    ensures if NoiseAt(data, i) then
              var e := NoiseEnd(data, i);
              && Joined(Segments(data, i)) == data[i..e] + Joined(Segments(data, e))
              && KeptOf(Segments(data, i)) == KeptOf(Segments(data, e))
              && (OnlyNoiseDropped(Segments(data, e)) ==> OnlyNoiseDropped(Segments(data, i)))
            else
              && Joined(Segments(data, i)) == [data[i]] + Joined(Segments(data, i + 1))
              && KeptOf(Segments(data, i)) == [data[i]] + KeptOf(Segments(data, i + 1))
              && (OnlyNoiseDropped(Segments(data, i + 1)) ==> OnlyNoiseDropped(Segments(data, i)))
  {
    hide Noise, NoiseEnd, Joined, KeptOf, OnlyNoiseDropped;
    if NoiseAt(data, i) {
      var e := NoiseEnd(data, i);
      NoiseOfSlice(data, i, e);
      Consing(Drop(data[i..e]), Segments(data, e));
    } else {
      Consing(Keep(data[i]), Segments(data, i + 1));
    }
  }

  /** The output is the input without the dropped slices, in order, and every dropped slice is noise. */
  lemma {:induction false} InputMinusNoise(data: seq<byte>, i: nat)
    requires i <= |data|
    ensures Joined(Segments(data, i)) == data[i..]
    ensures KeptOf(Segments(data, i)) == Kept(data, i)
    ensures OnlyNoiseDropped(Segments(data, i))
    decreases |data| - i
  {
    if i < |data| {
      hide *;
      SegmentsUnfold(data, i);
      KeptUnfold(data, i);
      if NoiseAt(data, i) {
        InputMinusNoise(data, NoiseEnd(data, i));
        TailSplits(data, i, NoiseEnd(data, i));
      } else {
        InputMinusNoise(data, i + 1);
        TailSplits(data, i, i + 1);
      }
    }
  }

  lemma KeptUnfold(data: seq<byte>, i: nat)
    requires i < |data|
    ensures Kept(data, i) == if NoiseAt(data, i) then Kept(data, NoiseEnd(data, i)) else [data[i]] + Kept(data, i + 1)
  {
  }

  lemma TailSplits(data: seq<byte>, i: nat, j: nat)
    requires i <= j <= |data|
    ensures data[i..] == data[i..j] + data[j..]
    ensures j == i + 1 ==> data[i..j] == [data[i]]
  {
  }

  lemma {:induction false} KeptShrinks(data: seq<byte>, i: nat)
    requires i <= |data|
    ensures |Kept(data, i)| <= |data| - i
    decreases |data| - i
  {
    if i < |data| {
      if NoiseAt(data, i) {
        KeptShrinks(data, NoiseEnd(data, i));
      } else {
        KeptShrinks(data, i + 1);
      }
    }
  }

  /** Scrollback is replayed as it is exactly when no noise phrase starts anywhere in it. */
  lemma {:induction false} UnchangedIffNoNoise(data: seq<byte>, i: nat)
    requires i <= |data|
    ensures Kept(data, i) == data[i..] <==> forall k | i <= k < |data| :: !NoiseAt(data, k)
    decreases |data| - i
  {
    if i < |data| {
      hide *;
      KeptUnfold(data, i);
      if NoiseAt(data, i) {
        KeptShrinks(data, NoiseEnd(data, i));
        assert |Kept(data, i)| < |data[i..]|;
      } else {
        UnchangedIffNoNoise(data, i + 1);
        SameHead(data, i, Kept(data, i + 1));
      }
    }
  }

  lemma SameHead(data: seq<byte>, i: nat, s: seq<byte>)
    requires i < |data|
    ensures [data[i]] + s == data[i..] <==> s == data[i + 1..]
  {
    assert data[i..][1..] == data[i + 1..] && ([data[i]] + s)[1..] == s;
    assert data[i..] == [data[i]] + data[i + 1..];
  }

  lemma {:induction false} SgrRunHasNoDollar(data: seq<byte>, i: nat, a: nat)
    requires i <= a <= |data| && SgrRun(data, i, a)
    ensures forall k | i <= k < a :: data[k] != DOLLAR
    decreases a - i
  {
    if i != a {
      var m: nat :| i < m <= a && Sgr(data, i, m) && SgrRun(data, m, a);
      SgrRunHasNoDollar(data, m, a);
    }
  }

  /** No phrase that starts with ESC [ and is dropped has a '$' in it. */
  lemma DroppedSequenceHasNoDollar(data: seq<byte>, i: nat, e: nat)
    requires Noise(data, i, e) && data[i + 1] == LEFT_BRACKET
    ensures forall k | i <= k < e :: data[k] != DOLLAR
  {
    if EolMark(data, i, e) {
      var a: nat, b: nat :| EolMarkParts(data, i, a, b, e);
      SgrRunHasNoDollar(data, i, a);
      SgrRunHasNoDollar(data, a + 1, b);
    }
  }

  /** A dropped phrase that starts with ESC [ gets past all the parameter bytes after it. */
  lemma PhraseReaches(data: seq<byte>, i: nat, e: nat, j: nat)
    requires Noise(data, i, e) && data[i + 1] == LEFT_BRACKET
    requires i + 2 <= j < |data| && !IsParameter(data[j])
    requires forall k | i + 2 <= k < j :: IsParameter(data[k])
    ensures j < e
  {
    if EolMark(data, i, e) {
      var a: nat, b: nat :| EolMarkParts(data, i, a, b, e);
      var m: nat :| i < m <= a && Sgr(data, i, m) && SgrRun(data, m, a);
      ControlSequenceEnds(data, i, m, LOWER_M, j);
    } else {
      ControlSequenceEnds(data, i, e, data[e - 1], j);
    }
  }

  // What is dropped, and what alone is dropped, byte by byte.

  /** A cursor position report or device attributes answer, ESC [ parameters R or c, is dropped wherever the reading comes to it. */
  lemma CsiResponseIsDropped(data: seq<byte>, i: nat, params: nat)
    requires i + params + 3 <= |data|
    requires data[i] == 0x1b && data[i + 1] == 0x5b
    requires forall k | i + 2 <= k < i + 2 + params :: 0x30 <= data[k] <= 0x3f
    requires data[i + params + 2] == 0x52 || data[i + params + 2] == 0x63
    ensures Kept(data, i) == Kept(data, i + params + 3)
  {
    assert ControlSequence(data, i, i + params + 3, data[i + params + 2]);
    DropsNoise(data, i, i + params + 3);
  }

  /** BEL, or ESC \, stands at x. */
  predicate Closes(data: seq<byte>, x: nat)
    requires x < |data|
  {
    data[x] == 0x07 || (data[x] == 0x1b && x + 1 < |data| && data[x + 1] == 0x5c)
  }

  lemma StringIsTerminated(data: seq<byte>, j: nat, k: nat)
    requires j <= k < |data| && Closes(data, k) && forall x | j <= x < k :: !Closes(data, x)
    ensures EndsAtTerminator(data, j, if data[k] == 0x07 then k + 1 else k + 2)
  {
    forall x | j <= x <= k
      ensures TerminatorAt(data, x) == Closes(data, x)
    {
    }
    hide TerminatorAt, Closes;
    assert FirstTerminator(data, j, k);
  }

  lemma DropsControlString(data: seq<byte>, i: nat, e: nat)
    requires i + 2 <= |data| && data[i] == ESC && (data[i + 1] == UPPER_P || IsColourHead(data, i))
    requires EndsAtTerminator(data, i + 2, e)
    ensures Kept(data, i) == Kept(data, e)
  {
    assert i < e <= |data|;
    hide EndsAtTerminator;
    DropsNoise(data, i, e);
  }

  /** So is ESC ] 10 ; or ESC ] 11 ; up to the first BEL or ESC \, which stands at k. */
  lemma ColourReportIsDropped(data: seq<byte>, i: nat, k: nat)
    requires i + 5 <= k < |data|
    requires data[i] == 0x1b && data[i + 1] == 0x5d && data[i + 2] == 0x31 && data[i + 4] == 0x3b
    requires data[i + 3] == 0x30 || data[i + 3] == 0x31
    requires Closes(data, k) && forall x | i + 5 <= x < k :: !Closes(data, x)
    ensures Kept(data, i) == Kept(data, if data[k] == 0x07 then k + 1 else k + 2)
  {
    assert !Closes(data, i + 2) && !Closes(data, i + 3) && !Closes(data, i + 4);
    StringIsTerminated(data, i + 2, k);
    assert data[i] == ESC && IsColourHead(data, i);
    hide *;
    DropsControlString(data, i, if data[k] == 0x07 then k + 1 else k + 2);
  }

  /** So is ESC P up to the first BEL or ESC \. */
  lemma DeviceControlIsDropped(data: seq<byte>, i: nat, k: nat)
    requires i + 2 <= k < |data|
    requires data[i] == 0x1b && data[i + 1] == 0x50
    requires Closes(data, k) && forall x | i + 2 <= x < k :: !Closes(data, x)
    ensures Kept(data, i) == Kept(data, if data[k] == 0x07 then k + 1 else k + 2)
  {
    StringIsTerminated(data, i + 2, k);
    assert data[i] == ESC && data[i + 1] == UPPER_P;
    hide *;
    DropsControlString(data, i, if data[k] == 0x07 then k + 1 else k + 2);
  }

  /** The bytes of one style: ESC [ parameters m. */
  predicate IsStyle(s: seq<byte>) {
    && |s| >= 3 && s[0] == 0x1b && s[1] == 0x5b && s[|s| - 1] == 0x6d
    && forall k | 2 <= k < |s| - 1 :: 0x30 <= s[k] <= 0x3f
  }

  predicate AreStyles(styles: seq<seq<byte>>) {
    forall k | 0 <= k < |styles| :: IsStyle(styles[k])
  }

  lemma {:induction false} StylesAreSgrRun(data: seq<byte>, i: nat, styles: seq<seq<byte>>)
    requires AreStyles(styles) && StandsAt(data, i, Flatten(styles))
    ensures SgrRun(data, i, i + |Flatten(styles)|)
    decreases |styles|
  {
    if styles != [] {
      var s, rest := styles[0], Flatten(styles[1..]);
      assert StandsAt(data, i, s + rest);
      StandsApart(data, i, s, rest);
      assert IsStyle(s);
      StyleIsSgr(data, i, s);
      hide StandsAt, IsStyle, Sgr, Flatten;
      StylesAreSgrRun(data, i + |s|, styles[1..]);
      assert SgrRun(data, i + |s|, i + |s| + |rest|);
    }
  }

  lemma StandsApart(data: seq<byte>, i: nat, a: seq<byte>, b: seq<byte>)
    ensures StandsAt(data, i, a + b) <==> StandsAt(data, i, a) && StandsAt(data, i + |a|, b)
  {
    if i + |a| + |b| <= |data| {
      assert data[i..i + |a + b|] == data[i..i + |a|] + data[i + |a|..i + |a| + |b|];
      assert (a + b)[..|a|] == a && (a + b)[|a|..] == b;
    }
  }

  lemma StyleIsSgr(data: seq<byte>, i: nat, s: seq<byte>)
    requires StandsAt(data, i, s)
    ensures IsStyle(s) <==> Sgr(data, i, i + |s|)
  {
    assert data[i..i + |s|] == s;
    assert forall k | 0 <= k < |s| :: data[i + k] == s[k];
    if Sgr(data, i, i + |s|) {
      forall k | 2 <= k < |s| - 1
        ensures 0x30 <= s[k] <= 0x3f
      {
        assert IsParameter(data[i + k]);
      }
    }
    if IsStyle(s) {
      forall k | i + 2 <= k < i + |s| - 1
        ensures IsParameter(data[k])
      {
        assert s[k - i] == data[k];
      }
    }
  }

  /** A run of at least one style, a % or #, any styles, any spaces and a carriage return. */
  function EolMarkText(opening: seq<seq<byte>>, mark: byte, closing: seq<seq<byte>>, spaces: nat): seq<byte> {
    Flatten(opening) + ([mark] + (Flatten(closing) + (Spaces(spaces) + [0x0d as byte])))
  }

  function Spaces(n: nat): (s: seq<byte>)
    ensures |s| == n && forall k | 0 <= k < n :: s[k] == 0x20
  {
    seq(n, _ => 0x20 as byte)
  }

  lemma EolMarkPieces(data: seq<byte>, i: nat, x: seq<byte>, mark: byte, y: seq<byte>, z: seq<byte>)
    ensures StandsAt(data, i, x + ([mark] + (y + (z + [0x0d as byte])))) <==>
            && StandsAt(data, i, x) && StandsAt(data, i + |x|, [mark]) && StandsAt(data, i + |x| + 1, y)
            && StandsAt(data, i + |x| + 1 + |y|, z) && StandsAt(data, i + |x| + 1 + |y| + |z|, [0x0d as byte])
  {
    hide *;
    StandsApart(data, i, x, [mark] + (y + (z + [0x0d as byte])));
    StandsApart(data, i + |x|, [mark], y + (z + [0x0d as byte]));
    StandsApart(data, i + |x| + 1, y, z + [0x0d as byte]);
    StandsApart(data, i + |x| + 1 + |y|, z, [0x0d as byte]);
  }

  /** Such a mark is dropped wherever the reading comes to it. */
  lemma EolMarkIsDropped(data: seq<byte>, i: nat, opening: seq<seq<byte>>, mark: byte, closing: seq<seq<byte>>, spaces: nat)
    requires opening != [] && AreStyles(opening) && AreStyles(closing) && (mark == 0x25 || mark == 0x23)
    requires StandsAt(data, i, EolMarkText(opening, mark, closing, spaces))
    ensures Kept(data, i) == Kept(data, i + |EolMarkText(opening, mark, closing, spaces)|)
  {
    hide *;
    var x, y, z := Flatten(opening), Flatten(closing), Spaces(spaces);
    EolMarkTextIs(opening, mark, closing, spaces);
    EolMarkPieces(data, i, x, mark, y, z);
    PiecesAreDropped(data, i, opening, mark, closing, spaces);
  }

  lemma EolMarkTextIs(opening: seq<seq<byte>>, mark: byte, closing: seq<seq<byte>>, spaces: nat)
    ensures var text, x, y := EolMarkText(opening, mark, closing, spaces), Flatten(opening), Flatten(closing);
            text == x + ([mark] + (y + (Spaces(spaces) + [0x0d as byte]))) && |text| == |x| + |y| + spaces + 2
  {
  }

  lemma PiecesAreDropped(data: seq<byte>, i: nat, opening: seq<seq<byte>>, mark: byte, closing: seq<seq<byte>>, spaces: nat)
    requires opening != [] && AreStyles(opening) && AreStyles(closing) && (mark == 0x25 || mark == 0x23)
    requires var x, y := |Flatten(opening)|, |Flatten(closing)|;
             && StandsAt(data, i, Flatten(opening)) && StandsAt(data, i + x, [mark]) && StandsAt(data, i + x + 1, Flatten(closing))
             && StandsAt(data, i + x + 1 + y, Spaces(spaces)) && StandsAt(data, i + x + 1 + y + spaces, [0x0d as byte])
    ensures Kept(data, i) == Kept(data, i + |Flatten(opening)| + |Flatten(closing)| + spaces + 2)
  {
    hide *;
    var a := i + |Flatten(opening)|;
    var b := a + 1 + |Flatten(closing)|;
    OpeningIsSome(opening);
    StylesAreSgrRun(data, i, opening);
    StylesAreSgrRun(data, a + 1, closing);
    PiecesMakeMark(data, i, a, b, b + spaces + 1, mark, Spaces(spaces));
    DropsNoise(data, i, b + spaces + 1);
  }

  lemma OpeningIsSome(opening: seq<seq<byte>>)
    requires opening != [] && AreStyles(opening)
    ensures |Flatten(opening)| >= 3
  {
    assert IsStyle(opening[0]);
  }

  lemma PiecesMakeMark(data: seq<byte>, i: nat, a: nat, b: nat, e: nat, mark: byte, spaces: seq<byte>)
    requires i < a < b && e == b + |spaces| + 1 && SgrRun(data, i, a) && SgrRun(data, a + 1, b)
    requires (mark == 0x25 || mark == 0x23) && forall k | 0 <= k < |spaces| :: spaces[k] == 0x20
    requires StandsAt(data, a, [mark]) && StandsAt(data, b, spaces) && StandsAt(data, b + |spaces|, [0x0d as byte])
    ensures Noise(data, i, e)
  {
    assert data[a..a + 1] == [mark] && data[a] == mark;
    assert data[b + |spaces|..e] == [0x0d as byte] && data[e - 1] == 0x0d;
    forall k | b <= k < e - 1
      ensures data[k] == 0x20
    {
      assert data[b..b + |spaces|][k - b] == data[k];
    }
    hide SgrRun;
    assert EolMarkParts(data, i, a, b, e);
  }

  lemma {:induction false} SgrRunIsStyles(data: seq<byte>, i: nat, a: nat) returns (styles: seq<seq<byte>>)
    requires i <= a <= |data| && SgrRun(data, i, a)
    ensures AreStyles(styles) && Flatten(styles) == data[i..a] && (styles == [] <==> i == a)
    decreases a - i
  {
    if i == a {
      styles := [];
    } else {
      var m: nat :| i < m <= a && Sgr(data, i, m) && SgrRun(data, m, a);
      var rest := SgrRunIsStyles(data, m, a);
      styles := [data[i..m]] + rest;
      StyleIsSgr(data, i, data[i..m]);
      hide Sgr, SgrRun, IsStyle;
      assert styles[1..] == rest;
      assert data[i..a] == data[i..m] + data[m..a];
    }
  }

  /**
   Nothing else is dropped: what the reading drops at i up to e is one of these, by its bytes.
   */
  lemma OnlyTheseAreDropped(data: seq<byte>, i: nat, e: nat)
    requires Noise(data, i, e)
    ensures i + 3 <= e <= |data| && data[i] == 0x1b
    ensures data[i + 1] == 0x5b || data[i + 1] == 0x5d || data[i + 1] == 0x50
    ensures data[i + 1] == 0x5b ==>
              || ((data[e - 1] == 0x52 || data[e - 1] == 0x63) && forall k | i + 2 <= k < e - 1 :: 0x30 <= data[k] <= 0x3f)
              || exists opening, mark: byte, closing, spaces: nat :: IsEolMarkText(data[i..e], opening, mark, closing, spaces)
    ensures data[i + 1] == 0x5d ==>
              && i + 6 <= e && data[i + 2] == 0x31 && (data[i + 3] == 0x30 || data[i + 3] == 0x31) && data[i + 4] == 0x3b
    ensures data[i + 1] != 0x5b ==> data[e - 1] == 0x07 || (data[e - 2] == 0x1b && data[e - 1] == 0x5c)
  {
    if EolMark(data, i, e) {
      EolMarkIsText(data, i, e);
      EolMarkStartsWithSgr(data, i, e);
    } else if ControlString(data, i, e) {
      var k: nat :| FirstTerminator(data, i + 2, k) && e == TerminatorEnd(data, k);
    } else {
      assert data[i + 1] == 0x5b;
      forall k | i + 2 <= k < e - 1
        ensures 0x30 <= data[k] <= 0x3f
      {
        assert IsParameter(data[k]);
      }
    }
  }

  predicate IsEolMarkText(s: seq<byte>, opening: seq<seq<byte>>, mark: byte, closing: seq<seq<byte>>, spaces: nat) {
    && opening != [] && AreStyles(opening) && AreStyles(closing) && (mark == 0x25 || mark == 0x23)
    && s == EolMarkText(opening, mark, closing, spaces)
  }

  lemma EolMarkIsText(data: seq<byte>, i: nat, e: nat)
    requires EolMark(data, i, e)
    ensures i + 3 <= e <= |data|
    ensures exists opening, mark: byte, closing, spaces: nat :: IsEolMarkText(data[i..e], opening, mark, closing, spaces)
  {
    var a: nat, b: nat :| EolMarkParts(data, i, a, b, e);
    var opening := SgrRunIsStyles(data, i, a);
    var closing := SgrRunIsStyles(data, a + 1, b);
    var spaces := e - 1 - b;
    assert data[b..e - 1] == Spaces(spaces);
    assert data[a] == 0x25 || data[a] == 0x23;
    assert data[e - 1] == 0x0d;
    hide *;
    OpeningIsSome(opening);
    FivePieces(data, i, a, b, e);
    TextIs(data[i..e], opening, data[a], closing, spaces);
  }

  lemma FivePieces(data: seq<byte>, i: nat, a: nat, b: nat, e: nat)
    requires i <= a < b < e <= |data|
    ensures data[i..e] == data[i..a] + ([data[a]] + (data[a + 1..b] + (data[b..e - 1] + [data[e - 1]])))
  {
    Cut(data, i, a, e);
    Cut(data, a, a + 1, e);
    Cut(data, a + 1, b, e);
    Cut(data, b, e - 1, e);
    assert data[a..a + 1] == [data[a]] && data[e - 1..e] == [data[e - 1]];
  }

  lemma Cut(data: seq<byte>, i: nat, j: nat, k: nat)
    requires i <= j <= k <= |data|
    ensures data[i..k] == data[i..j] + data[j..k]
  {
  }

  lemma TextIs(s: seq<byte>, opening: seq<seq<byte>>, mark: byte, closing: seq<seq<byte>>, spaces: nat)
    requires opening != [] && AreStyles(opening) && AreStyles(closing) && (mark == 0x25 || mark == 0x23)
    requires s == Flatten(opening) + ([mark] + (Flatten(closing) + (Spaces(spaces) + [0x0d as byte])))
    ensures IsEolMarkText(s, opening, mark, closing, spaces)
  {
  }

  // Mode reports.

  /** A DECRPM mode report: ESC [ parameters $ y. */
  predicate ModeReport(data: seq<byte>, i: nat, params: nat) {
    && i + params + 4 <= |data|
    && data[i] == ESC && data[i + 1] == LEFT_BRACKET
    && (forall k | i + 2 <= k < i + 2 + params :: IsParameter(data[k]))
    && data[i + params + 2] == DOLLAR && data[i + params + 3] == LOWER_Y
  }

  lemma NoNoiseInModeReport(data: seq<byte>, i: nat, params: nat, k: nat)
    requires ModeReport(data, i, params) && i <= k < i + params + 4
    ensures !NoiseAt(data, k)
  {
    forall e: nat | Noise(data, k, e)
      ensures false
    {
      if k == i {
        PhraseReaches(data, k, e, i + params + 2);
        DroppedSequenceHasNoDollar(data, k, e);
      } else {
        EolMarkNeedsBracket(data, k);
      }
    }
  }

  lemma {:induction false} KeepsStretch(data: seq<byte>, i: nat, j: nat)
    requires i <= j <= |data| && forall k | i <= k < j :: !NoiseAt(data, k)
    ensures Kept(data, i) == data[i..j] + Kept(data, j)
    decreases j - i
  {
    if i < j {
      hide *;
      KeepsStretch(data, i + 1, j);
      KeptUnfold(data, i);
      NextByte(data, i, j, Kept(data, j));
    } else {
      assert data[i..j] == [];
    }
  }

  lemma NextByte(data: seq<byte>, i: nat, j: nat, rest: seq<byte>)
    requires i < j <= |data|
    ensures [data[i]] + (data[i + 1..j] + rest) == data[i..j] + rest
  {
    assert data[i..j] == [data[i]] + data[i + 1..j];
  }

  /**
   The comment on the source lists DECRPM mode reports among what is removed. Whatever stands around it, a
   report that the reading comes to is kept byte for byte, because the scan stops at '$' and never gets to
   the final byte.
   */
  lemma ModeReportIsKept(data: seq<byte>, i: nat, params: nat)
    requires ModeReport(data, i, params)
    ensures Kept(data, i) == data[i..i + params + 4] + Kept(data, i + params + 4)
  {
    forall k | i <= k < i + params + 4
      ensures !NoiseAt(data, k)
    {
      NoNoiseInModeReport(data, i, params, k);
    }
    KeepsStretch(data, i, i + params + 4);
  }

  /** The leftmost reading that starts at `from` comes to position i. */
  ghost predicate Reached(data: seq<byte>, from: nat, i: nat)
    requires from <= |data|
    decreases |data| - from
  {
    from == i ||
    (from < i && from < |data| && Reached(data, if NoiseAt(data, from) then NoiseEnd(data, from) else from + 1, i))
  }

  /** Where the reading goes on after position i. */
  ghost function Onward(data: seq<byte>, i: nat): (next: nat)
    requires i < |data|
    ensures i < next <= |data|
  {
    if NoiseAt(data, i) then NoiseEnd(data, i) else i + 1
  }

  lemma ReachedUnfold(data: seq<byte>, from: nat, i: nat)
    requires from < |data|
    ensures Reached(data, from, i) <==> from == i || (from < i && Reached(data, Onward(data, from), i))
  {
  }

  lemma NotReachedBehind(data: seq<byte>, from: nat, i: nat)
    requires i < from <= |data|
    ensures !Reached(data, from, i)
  {
  }

  lemma {:induction false} EscapeInSgrRun(data: seq<byte>, i: nat, a: nat, k: nat)
    requires SgrRun(data, i, a) && i <= k < a <= |data| && data[k] == ESC
    ensures exists m: nat :: Sgr(data, k, m)
    decreases a - i
  {
    var m: nat :| i < m <= a && Sgr(data, i, m) && SgrRun(data, m, a);
    if k >= m {
      EscapeInSgrRun(data, m, a, k);
    } else {
      assert k == i;
    }
  }

  lemma ModeReportIsNoSgr(data: seq<byte>, i: nat, params: nat)
    requires ModeReport(data, i, params)
    ensures forall m: nat :: !Sgr(data, i, m)
  {
    forall m: nat | Sgr(data, i, m)
      ensures false
    {
      ControlSequenceEnds(data, i, m, LOWER_M, i + params + 2);
    }
  }

  lemma EolMarkMissesModeReport(data: seq<byte>, s: nat, e: nat, i: nat, params: nat)
    requires EolMark(data, s, e) && ModeReport(data, i, params)
    ensures !(s <= i < e)
  {
    var a: nat, b: nat :| EolMarkParts(data, s, a, b, e);
    ModeReportIsNoSgr(data, i, params);
    if s <= i < a {
      EscapeInSgrRun(data, s, a, i);
    } else if a + 1 <= i < b {
      EscapeInSgrRun(data, a + 1, b, i);
    }
  }

  lemma TerminatorsMissModeReport(data: seq<byte>, i: nat, params: nat, k: nat)
    requires ModeReport(data, i, params) && k < |data| && TerminatorAt(data, k) && i < TerminatorEnd(data, k)
    ensures i + params + 4 <= k
  {
  }

  /** A dropped phrase that runs into a report from before it is a control string, and has all of it. */
  lemma PhraseOverModeReport(data: seq<byte>, s: nat, e: nat, i: nat, params: nat)
    requires Noise(data, s, e) && s < i < e && ModeReport(data, i, params)
    ensures ControlString(data, s, e) && i + params + 4 <= e
  {
    if EolMark(data, s, e) {
      EolMarkMissesModeReport(data, s, e, i, params);
    } else if ControlString(data, s, e) {
      var k: nat :| FirstTerminator(data, s + 2, k) && e == TerminatorEnd(data, k);
      TerminatorsMissModeReport(data, i, params, k);
    }
  }

  /** The reading passes over what is inside a phrase it drops. */
  lemma {:induction false} DroppedIsNotReached(data: seq<byte>, from: nat, s: nat, e: nat, i: nat)
    requires from <= |data| && Reached(data, from, s) && Noise(data, s, e) && s < i < e
    ensures !Reached(data, from, i)
    decreases |data| - from
  {
    ReachedIsAhead(data, from, s);
    hide *;
    ReachedUnfold(data, from, s);
    ReachedUnfold(data, from, i);
    if from == s {
      OnwardIsEnd(data, s, e);
      NotReachedBehind(data, e, i);
    } else {
      DroppedIsNotReached(data, Onward(data, from), s, e, i);
    }
  }

  lemma OnwardIsEnd(data: seq<byte>, s: nat, e: nat)
    requires Noise(data, s, e)
    ensures s < |data| && Onward(data, s) == e
  {
    NoiseUnique(data, s, e, NoiseEnd(data, s));
  }

  /** A control string that the reading drops has the whole report in it. */
  ghost predicate Swallows(data: seq<byte>, from: nat, s: nat, e: nat, i: nat, params: nat)
    requires from <= |data|
  {
    && s < i && i + params + 4 <= e
    && Reached(data, from, s) && Noise(data, s, e) && ControlString(data, s, e)
  }

  lemma {:induction false} SwallowerOf(data: seq<byte>, from: nat, i: nat, params: nat) returns (s: nat, e: nat)
    requires from <= i && ModeReport(data, i, params) && !Reached(data, from, i)
    ensures Swallows(data, from, s, e, i, params)
    decreases |data| - from
  {
    var next := Onward(data, from);
    ReachedUnfold(data, from, i);
    ReachedUnfold(data, from, from);
    if next <= i {
      s, e := SwallowerOf(data, next, i, params);
      ReachedIsAhead(data, next, s);
      ReachedUnfold(data, from, s);
    } else {
      s, e := from, next;
      PhraseOverModeReport(data, s, e, i, params);
    }
  }

  lemma ReachedIsAhead(data: seq<byte>, from: nat, i: nat)
    requires from <= |data| && Reached(data, from, i)
    ensures from <= i
  {
  }

  lemma Reassociate(a: seq<byte>, b: seq<byte>, c: seq<byte>)
    ensures a + (b + c) == a + b + c
  {
  }

  lemma OnwardIs(data: seq<byte>, i: nat)
    requires i < |data|
    ensures Onward(data, i) == if NoiseAt(data, i) then NoiseEnd(data, i) else i + 1
  {
  }

  predicate StandsAt(s: seq<byte>, at: nat, piece: seq<byte>) {
    at + |piece| <= |s| && s[at..at + |piece|] == piece
  }

  /** A report inside a device control string goes with it: ESC P ESC[$y BEL leaves nothing. */
  lemma ModeReportIsSwallowed()
    ensures var data := [ESC, UPPER_P, ESC, LEFT_BRACKET, DOLLAR, LOWER_Y, BEL];
            ModeReport(data, 2, 0) && Kept(data, 0) == []
  {
    var data := [ESC, UPPER_P, ESC, LEFT_BRACKET, DOLLAR, LOWER_Y, BEL];
    assert FirstTerminator(data, 2, 6);
    assert DeviceControl(data, 0, 7);
    DropsNoise(data, 0, 7);
  }

  // Stripping twice.

  lemma {:induction false} KeptOfConcat(a: seq<Segment>, b: seq<Segment>)
    ensures KeptOf(a + b) == KeptOf(a) + KeptOf(b)
    ensures Joined(a + b) == Joined(a) + Joined(b)
  {
    if a == [] {
      assert a + b == b;
    } else {
      hide *;
      var rest := a[1..];
      assert a == [a[0]] + rest && a + b == [a[0]] + (rest + b);
      Consing(a[0], rest);
      Consing(a[0], rest + b);
      KeptOfConcat(rest, b);
      Reassociate(TextOf(a[0]), Joined(rest), Joined(b));
      Reassociate(OutputOf(a[0]), KeptOf(rest), KeptOf(b));
    }
  }

  lemma InThree<T>(s: seq<T>, a: nat, b: nat)
    requires a <= b <= |s|
    ensures s == s[..a] + s[a..b] + s[b..]
  {
  }

  lemma MiddleOf(a: seq<byte>, b: seq<byte>, c: seq<byte>)
    ensures StandsAt(a + b + c, |a|, b)
  {
  }

  /** What a stretch of segments keeps, and what it holds, is a slice of the whole. */
  lemma StretchIsSlice(segments: seq<Segment>, a: nat, b: nat)
    requires a <= b <= |segments|
    ensures StandsAt(KeptOf(segments), |KeptOf(segments[..a])|, KeptOf(segments[a..b]))
    ensures StandsAt(Joined(segments), |Joined(segments[..a])|, Joined(segments[a..b]))
  {
    hide *;
    var x, y, z := segments[..a], segments[a..b], segments[b..];
    InThree(segments, a, b);
    KeptOfConcat(x + y, z);
    KeptOfConcat(x, y);
    MiddleOf(KeptOf(x), KeptOf(y), KeptOf(z));
    MiddleOf(Joined(x), Joined(y), Joined(z));
  }

  /** The segment that keeps the output byte at j. */
  lemma {:induction false} FindKeep(segments: seq<Segment>, j: nat) returns (a: nat)
    requires j < |KeptOf(segments)|
    ensures a < |segments| && segments[a].Keep? && |KeptOf(segments[..a])| == j
  {
    if segments[0].Keep? && j == 0 {
      a := 0;
    } else {
      var rest := FindKeep(segments[1..], if segments[0].Keep? then j - 1 else j);
      a := rest + 1;
      assert segments[..a] == [segments[0]] + segments[1..][..rest];
      Consing(segments[0], segments[1..][..rest]);
    }
  }

  predicate AllKept(segments: seq<Segment>) {
    forall s | s in segments :: s.Keep?
  }

  lemma {:induction false} KeepsOnly(segments: seq<Segment>)
    requires AllKept(segments)
    ensures Joined(segments) == KeptOf(segments) && |KeptOf(segments)| == |segments|
  {
    if segments != [] {
      assert segments[0] in segments;
      KeepsOnly(segments[1..]);
    }
  }

  lemma KeptOfGrows(segments: seq<Segment>, a: nat, b: nat)
    requires a <= b <= |segments|
    ensures |KeptOf(segments[..b])| == |KeptOf(segments[..a])| + |KeptOf(segments[a..b])|
  {
    hide *;
    assert segments[..b] == segments[..a] + segments[a..b];
    KeptOfConcat(segments[..a], segments[a..b]);
  }

  /** No phrase stands at a byte that is kept. */
  lemma {:induction false} KeptStartsNoPhrase(data: seq<byte>, i: nat, a: nat)
    requires i <= |data| && a < |Segments(data, i)| && Segments(data, i)[a].Keep?
    ensures !NoiseAt(data, i + |Joined(Segments(data, i)[..a])|)
    decreases |data| - i
  {
    hide *;
    FirstSegment(data, i);
    if a > 0 {
      var first, rest := Segments(data, i)[0], Segments(data, Onward(data, i));
      assert Segments(data, i)[..a] == [first] + rest[..a - 1] && Segments(data, i)[a] == rest[a - 1];
      Consing(first, rest[..a - 1]);
      KeptStartsNoPhrase(data, Onward(data, i), a - 1);
    }
  }

  lemma FirstSegment(data: seq<byte>, i: nat)
    requires i <= |data|
    ensures i == |data| ==> Segments(data, i) == []
    ensures i < |data| ==>
              var segments := Segments(data, i);
              && segments != [] && segments == [segments[0]] + Segments(data, Onward(data, i))
              && |TextOf(segments[0])| == Onward(data, i) - i
              && (segments[0].Keep? ==> !NoiseAt(data, i))
              && Joined(segments[..0]) == []
  {
  }

  // What becomes of one byte.

  predicate KeepsByteAt(segments: seq<Segment>, a: nat, k: nat) {
    a < |segments| && segments[a].Keep? && |Joined(segments[..a])| == k
  }

  /** The byte at position k of what the segments hold is kept, as a segment of its own. */
  ghost predicate KeptAt(segments: seq<Segment>, k: nat) {
    exists a: nat :: KeepsByteAt(segments, a, k)
  }

  lemma {:induction false} SegmentIsReached(data: seq<byte>, i: nat, a: nat)
    requires i <= |data| && a < |Segments(data, i)|
    ensures var k := i + |Joined(Segments(data, i)[..a])|; k < |data| && Reached(data, i, k)
    decreases |data| - i
  {
    hide *;
    FirstSegment(data, i);
    ReachedUnfold(data, i, i);
    if a > 0 {
      var first, rest := Segments(data, i)[0], Segments(data, Onward(data, i));
      assert Segments(data, i)[..a] == [first] + rest[..a - 1];
      Consing(first, rest[..a - 1]);
      SegmentIsReached(data, Onward(data, i), a - 1);
      ReachedUnfold(data, i, i + |Joined(Segments(data, i)[..a])|);
    }
  }

  lemma {:induction false} ReachedSegment(data: seq<byte>, i: nat, k: nat) returns (a: nat)
    requires i <= k < |data| && Reached(data, i, k) && !NoiseAt(data, k)
    ensures KeepsByteAt(Segments(data, i), a, k - i)
    decreases |data| - i
  {
    FirstSegment(data, i);
    ReachedUnfold(data, i, k);
    if i == k {
      a := 0;
    } else {
      var next := Onward(data, i);
      assert next <= k by { ReachedIsAhead(data, next, k); }
      var rest := ReachedSegment(data, next, k);
      a := rest + 1;
      hide Reached, Segments, NoiseAt, Onward, Joined;
      var first := Segments(data, i)[0];
      assert Segments(data, i)[..a] == [first] + Segments(data, next)[..rest];
      Consing(first, Segments(data, next)[..rest]);
    }
  }

  lemma KeptAtIff(data: seq<byte>, segments: seq<Segment>, k: nat)
    requires segments == Segments(data, 0)
    ensures KeptAt(segments, k) <==> k < |data| && Reached(data, 0, k) && !NoiseAt(data, k)
  {
    hide Segments, Reached, NoiseAt, Joined;
    if KeptAt(segments, k) {
      var a: nat :| KeepsByteAt(segments, a, k);
      SegmentIsReached(data, 0, a);
      KeptStartsNoPhrase(data, 0, a);
    }
    if k < |data| && Reached(data, 0, k) && !NoiseAt(data, k) {
      var a := ReachedSegment(data, 0, k);
      assert KeepsByteAt(segments, a, k);
    }
  }

  lemma {:induction false} ReachedOn(data: seq<byte>, from: nat, i: nat, k: nat)
    requires from <= i <= k <= |data| && Reached(data, from, i) && forall x | i <= x < k :: !NoiseAt(data, x)
    ensures Reached(data, from, k)
    decreases |data| - from
  {
    hide *;
    if from < k {
      ReachedUnfold(data, from, i);
      ReachedUnfold(data, from, k);
      OnwardIs(data, from);
      if from == i {
        ReachedHere(data, from + 1);
        ReachedOn(data, from + 1, from + 1, k);
      } else {
        ReachedIsAhead(data, Onward(data, from), i);
        ReachedOn(data, Onward(data, from), i, k);
      }
    }
  }

  lemma ReachedHere(data: seq<byte>, i: nat)
    requires i <= |data|
    ensures Reached(data, i, i)
  {
  }

  lemma {:induction false} ReachedIsSuffix(data: seq<byte>, from: nat, i: nat) returns (before: seq<byte>)
    requires from <= |data| && i <= |data| && Reached(data, from, i)
    ensures Kept(data, from) == before + Kept(data, i)
    decreases |data| - from
  {
    if from == i {
      before := [];
    } else {
      hide *;
      ReachedUnfold(data, from, i);
      KeptUnfold(data, from);
      OnwardIs(data, from);
      var rest := ReachedIsSuffix(data, Onward(data, from), i);
      if NoiseAt(data, from) {
        before := rest;
      } else {
        before := [data[from]] + rest;
        Reassociate([data[from]], rest, Kept(data, i));
      }
    }
  }

  ghost predicate Contains(s: seq<byte>, piece: seq<byte>) {
    exists at: nat :: StandsAt(s, at, piece)
  }

  /**
   What becomes of a report anywhere in the scrollback: all its bytes are kept exactly when the reading
   drops no control string that has the whole of it inside, and otherwise none of them is.
   */
  lemma ModeReportFate(data: seq<byte>, segments: seq<Segment>, i: nat, params: nat)
    requires ModeReport(data, i, params) && segments == Segments(data, 0)
    ensures (forall k | i <= k < i + params + 4 :: KeptAt(segments, k)) <==>
            !exists s: nat, e: nat :: Swallows(data, 0, s, e, i, params)
    ensures (exists k | i <= k < i + params + 4 :: KeptAt(segments, k)) <==>
            !exists s: nat, e: nat :: Swallows(data, 0, s, e, i, params)
    ensures (exists k | i <= k < i + params + 4 :: KeptAt(segments, k)) ==>
            Contains(Kept(data, 0), data[i..i + params + 4])
  {
    if Reached(data, 0, i) {
      ReachedReportIsKept(data, segments, i, params);
      ReachedReportIsInOutput(data, i, params);
      assert KeptAt(segments, i);
      forall s: nat, e: nat | Swallows(data, 0, s, e, i, params)
        ensures false
      {
        DroppedIsNotReached(data, 0, s, e, i);
      }
    } else {
      var s, e := SwallowerOf(data, 0, i, params);
      SwallowedIsNotKept(data, segments, s, e, i, params);
      assert !KeptAt(segments, i);
    }
  }

  lemma ReachedReportIsInOutput(data: seq<byte>, i: nat, params: nat)
    requires ModeReport(data, i, params) && Reached(data, 0, i)
    ensures Contains(Kept(data, 0), data[i..i + params + 4])
  {
    var before := ReachedIsSuffix(data, 0, i);
    ModeReportIsKept(data, i, params);
    assert StandsAt(Kept(data, 0), |before|, data[i..i + params + 4]);
  }

  lemma ReachedReportIsKept(data: seq<byte>, segments: seq<Segment>, i: nat, params: nat)
    requires ModeReport(data, i, params) && segments == Segments(data, 0) && Reached(data, 0, i)
    ensures forall k | i <= k < i + params + 4 :: KeptAt(segments, k)
  {
    forall k | i <= k < i + params + 4
      ensures !NoiseAt(data, k)
    {
      NoNoiseInModeReport(data, i, params, k);
    }
    assert i + params + 4 <= |data|;
    hide *;
    forall k | i <= k < i + params + 4
      ensures KeptAt(segments, k)
    {
      ReachedOn(data, 0, i, k);
      KeptAtIff(data, segments, k);
    }
  }

  lemma SwallowedIsNotKept(data: seq<byte>, segments: seq<Segment>, s: nat, e: nat, i: nat, params: nat)
    requires segments == Segments(data, 0) && Swallows(data, 0, s, e, i, params)
    ensures forall k | i <= k < i + params + 4 :: !KeptAt(segments, k)
  {
    assert s < i && i + params + 4 <= e && Reached(data, 0, s) && Noise(data, s, e);
    hide *;
    forall k | i <= k < i + params + 4
      ensures !KeptAt(segments, k)
    {
      DroppedIsNotReached(data, 0, s, e, k);
      KeptAtIff(data, segments, k);
    }
  }

  lemma {:induction false} SgrRunInContext(data: seq<byte>, lo: nat, hi: nat, i: nat, a: nat)
    requires lo <= hi <= |data| && i <= a <= hi - lo && SgrRun(data[lo..hi], i, a)
    ensures SgrRun(data, lo + i, lo + a)
    decreases a - i
  {
    if i != a {
      var m: nat :| i < m <= a && Sgr(data[lo..hi], i, m) && SgrRun(data[lo..hi], m, a);
      SgrRunInContext(data, lo, hi, m, a);
      assert Sgr(data, lo + i, lo + m);
    }
  }

  lemma TerminatorInContext(data: seq<byte>, i: nat, e: nat)
    requires i + 2 <= e <= |data| && EndsAtTerminator(data[i..e], 2, e - i)
    ensures EndsAtTerminator(data, i + 2, e)
  {
    var s := data[i..e];
    var k: nat :| FirstTerminator(s, 2, k) && e - i == TerminatorEnd(s, k);
    forall x | i + 2 <= x < i + k
      ensures !TerminatorAt(data, x)
    {
      assert !TerminatorAt(s, x - i);
    }
    assert FirstTerminator(data, i + 2, i + k);
  }

  lemma EolMarkInContext(data: seq<byte>, i: nat, e: nat)
    requires i <= e <= |data| && EolMark(data[i..e], 0, e - i)
    ensures EolMark(data, i, e)
  {
    var a: nat, b: nat :| EolMarkParts(data[i..e], 0, a, b, e - i);
    SgrRunInContext(data, i, e, 0, a);
    SgrRunInContext(data, i, e, a + 1, b);
    hide SgrRun;
    assert EolMarkParts(data, i, i + a, i + b, e);
  }

  lemma ControlStringInContext(data: seq<byte>, i: nat, e: nat)
    requires i < e <= |data| && ControlString(data[i..e], 0, e - i)
    ensures ControlString(data, i, e)
  {
    TerminatorInContext(data, i, e);
    hide EndsAtTerminator;
  }

  lemma CsiResponseInContext(data: seq<byte>, i: nat, e: nat)
    requires i < e <= |data| && CsiResponse(data[i..e], 0, e - i)
    ensures CsiResponse(data, i, e)
  {
  }

  /** A slice that is noise by itself is noise wherever it stands. */
  lemma NoiseInContext(data: seq<byte>, i: nat, e: nat)
    requires i <= e <= |data| && Noise(data[i..e], 0, e - i)
    ensures Noise(data, i, e)
  {
    hide EolMark, CsiResponse, OscColour, DeviceControl;
    if EolMark(data[i..e], 0, e - i) {
      EolMarkInContext(data, i, e);
    } else if CsiResponse(data[i..e], 0, e - i) {
      CsiResponseInContext(data, i, e);
    } else {
      ControlStringInContext(data, i, e);
    }
  }

  /** What is kept of some neighbouring segments, one of them dropped, is a phrase again. */
  ghost predicate JoinUp(segments: seq<Segment>, a: nat, b: nat) {
    && a <= b <= |segments|
    && (exists s :: s in segments[a..b] && s.Drop?)
    && Noise(KeptOf(segments[a..b]), 0, |KeptOf(segments[a..b])|)
  }

  ghost predicate SomeJoinUp(segments: seq<Segment>) {
    exists a: nat, b: nat :: JoinUp(segments, a, b)
  }

  lemma JoinUpOf(segments: seq<Segment>) returns (a: nat, b: nat)
    requires SomeJoinUp(segments)
    ensures JoinUp(segments, a, b)
  {
    a, b :| JoinUp(segments, a, b);
  }

  lemma JoinUpIsOne(segments: seq<Segment>, a: nat, b: nat)
    requires JoinUp(segments, a, b)
    ensures SomeJoinUp(segments)
  {
  }

  lemma PieceInContext(data: seq<byte>, i: nat, piece: seq<byte>)
    requires StandsAt(data, i, piece) && Noise(piece, 0, |piece|)
    ensures i < |data| && NoiseAt(data, i)
  {
    NoiseInContext(data, i, i + |piece|);
  }

  lemma PieceOfPhrase(data: seq<byte>, i: nat, e: nat, piece: seq<byte>)
    requires Noise(data, i, e) && piece == data[i..e]
    ensures Noise(piece, 0, |piece|)
  {
    NoiseOfSlice(data, i, e);
  }

  lemma JoinedPhraseIsThere(segments: seq<Segment>, out: seq<byte>, a: nat, b: nat) returns (j: nat)
    requires out == KeptOf(segments) && JoinUp(segments, a, b)
    ensures j < |out| && NoiseAt(out, j)
  {
    var phrase := KeptOf(segments[a..b]);
    assert Noise(phrase, 0, |phrase|);
    j := |KeptOf(segments[..a])|;
    StretchIsSlice(segments, a, b);
    hide *;
    PieceInContext(out, j, phrase);
  }

  lemma OutputIsKept(data: seq<byte>)
    ensures KeptOf(Segments(data, 0)) == Kept(data, 0) && Joined(Segments(data, 0)) == data
  {
    InputMinusNoise(data, 0);
    assert data[0..] == data;
  }

  /** The segments that a phrase of the output comes from. */
  lemma PhraseOfOutput(data: seq<byte>, segments: seq<Segment>, out: seq<byte>, j: nat, e: nat) returns (a: nat, b: nat)
    requires segments == Segments(data, 0) && out == KeptOf(segments) && Noise(out, j, e)
    ensures JoinUp(segments, a, b)
  {
    assert j < e <= |out|;
    hide *;
    a, b := StretchOfOutput(segments, j, e);
    PieceOfPhrase(out, j, e, KeptOf(segments[a..b]));
    if AllKept(segments[a..b]) {
      PhraseWasThere(data, segments, a, b);
      KeptStartsNoPhrase(data, 0, a);
    } else {
      JoinsUp(segments, a, b);
    }
  }

  lemma JoinsUp(segments: seq<Segment>, a: nat, b: nat)
    requires a <= b <= |segments| && !AllKept(segments[a..b])
    requires var phrase := KeptOf(segments[a..b]); Noise(phrase, 0, |phrase|)
    ensures JoinUp(segments, a, b)
  {
  }

  lemma StretchOfOutput(segments: seq<Segment>, j: nat, e: nat) returns (a: nat, b: nat)
    requires j < e <= |KeptOf(segments)|
    ensures a < b <= |segments| && segments[a].Keep?
    ensures KeptOf(segments[a..b]) == KeptOf(segments)[j..e]
  {
    hide *;
    a := FindKeep(segments, j);
    var last := FindKeep(segments, e - 1);
    b := last + 1;
    KeptThrough(segments, last);
    if last < a {
      KeptOfGrows(segments, b, a);
    }
    StretchIsSlice(segments, a, b);
    KeptOfGrows(segments, a, b);
    StandsAtIs(KeptOf(segments), j, e, KeptOf(segments[a..b]));
  }

  lemma StandsAtIs(s: seq<byte>, j: nat, e: nat, piece: seq<byte>)
    requires StandsAt(s, j, piece) && e == j + |piece|
    ensures e <= |s| && piece == s[j..e]
  {
  }

  lemma KeptThrough(segments: seq<Segment>, a: nat)
    requires a < |segments| && segments[a].Keep?
    ensures |KeptOf(segments[..a + 1])| == |KeptOf(segments[..a])| + 1
  {
    assert segments[..a + 1] == segments[..a] + [segments[a]];
    KeptOfConcat(segments[..a], [segments[a]]);
    assert KeptOf([segments[a]]) == [segments[a].b] + KeptOf([]);
  }

  /** Kept bytes with nothing dropped between them stand side by side in the input as well. */
  lemma PhraseWasThere(data: seq<byte>, segments: seq<Segment>, a: nat, b: nat)
    requires segments == Segments(data, 0) && a < b <= |segments| && AllKept(segments[a..b])
    requires var phrase := KeptOf(segments[a..b]); Noise(phrase, 0, |phrase|)
    ensures NoiseAt(data, |Joined(segments[..a])|)
  {
    hide *;
    OutputIsKept(data);
    StretchIsSlice(segments, a, b);
    KeepsOnly(segments[a..b]);
    PieceInContext(data, |Joined(segments[..a])|, KeptOf(segments[a..b]));
  }

  /**
   Stripping twice is stripping once, for exactly those inputs in which no phrase is joined up out of kept
   bytes on both sides of a dropped slice.
   */
  lemma StrippingTwiceIff(data: seq<byte>)
    ensures Kept(Kept(data, 0), 0) == Kept(data, 0) <==> !SomeJoinUp(Segments(data, 0))
  {
    hide *;
    var out, segments := Kept(data, 0), Segments(data, 0);
    OutputIsKept(data);
    UnchangedIffNoNoise(out, 0);
    assert out[0..] == out;
    if SomeJoinUp(segments) {
      var a, b := JoinUpOf(segments);
      var j := JoinedPhraseIsThere(segments, out, a, b);
    }
    if Kept(out, 0) != out {
      var j :| 0 <= j < |out| && NoiseAt(out, j);
      var e := PhraseEnd(out, j);
      var a, b := PhraseOfOutput(data, segments, out, j, e);
      JoinUpIsOne(segments, a, b);
    }
  }

  lemma PhraseEnd(data: seq<byte>, i: nat) returns (e: nat)
    requires NoiseAt(data, i)
    ensures Noise(data, i, e)
  {
    e :| Noise(data, i, e);
  }

  /** An ESC is in the output exactly when the reading comes to one at which no phrase begins. */
  lemma {:induction false} EscapeSurvivesIff(data: seq<byte>, from: nat)
    requires from <= |data|
    ensures ESC in Kept(data, from) <==>
              exists k: nat :: k < |data| && Reached(data, from, k) && data[k] == ESC && !NoiseAt(data, k)
    decreases |data| - from
  {
    if from == |data| {
      assert forall k: nat :: k < |data| ==> !Reached(data, from, k);
    } else {
      var next := Onward(data, from);
      EscapeSurvivesIff(data, next);
      OnwardIs(data, from);
      KeptUnfold(data, from);
      forall k: nat
        ensures Reached(data, from, k) <==> from == k || (from < k && Reached(data, next, k))
      {
        ReachedUnfold(data, from, k);
      }
      forall k: nat | Reached(data, next, k)
        ensures from < k
      {
        ReachedIsAhead(data, next, k);
      }
      hide *;
    }
  }

  /** So input in which every ESC begins a phrase is stripped once and for all. */
  lemma CleanEscapesStripOnce(data: seq<byte>)
    requires forall k | 0 <= k < |data| && data[k] == ESC :: NoiseAt(data, k)
    ensures ESC !in Kept(data, 0) && Kept(Kept(data, 0), 0) == Kept(data, 0)
  {
    var out := Kept(data, 0);
    EscapeSurvivesIff(data, 0);
    forall k | 0 <= k < |out|
      ensures !NoiseAt(out, k)
    {
      assert out[k] in out;
      EolMarkNeedsBracket(out, k);
    }
    UnchangedIffNoNoise(out, 0);
    assert out[0..] == out;
  }

  /** Dropping one report can join the bytes around it into another: ESC ESC[1R [1R leaves ESC[1R. */
  lemma StrippingTwiceMayStripMore()
    ensures var once := [ESC, LEFT_BRACKET, DIGIT_1, UPPER_R];
            Kept([ESC] + once + once[1..], 0) == once && Kept(once, 0) == []
  {
    var once := [ESC, LEFT_BRACKET, DIGIT_1, UPPER_R];
    assert CsiResponse(once, 0, 4);
    DropsNoise(once, 0, 4);
    var twice := [ESC] + once + once[1..];
    forall k | 0 <= k < 8 && k != 1
      ensures !NoiseAt(twice, k)
    {
      EolMarkNeedsBracket(twice, k);
    }
    assert CsiResponse(twice, 1, 5);
    DropsNoise(twice, 1, 5);
    UnchangedIffNoNoise(twice, 5);
    assert Kept(twice, 0) == [ESC] + Kept(twice, 1);
    assert twice[5..] == once[1..];
  }
}
