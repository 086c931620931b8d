/**
 The streaming Ctrl+A D filter between a client and its PTY (internal/grpc/detachable.go).
 Its meaning is given without the held byte: a detach key triggers exactly when the run of
 Ctrl+A bytes just before it has odd length.
 */
module InputFilter {
  import opened Bytes

  const CTRL_A: byte := 0x01
  const LOWER_D: byte := 0x64
  const UPPER_D: byte := 0x44

  /** A Ctrl+A that was read but not yet passed on. */
  function Pending(held: bool): seq<byte> {
    if held then [CTRL_A] else []
  }

  /** How many Ctrl+A bytes stand directly before position i. */
  function CtrlARun(s: seq<byte>, i: nat): nat
    requires i <= |s|
  {
    if i == 0 || s[i - 1] != CTRL_A then 0 else 1 + CtrlARun(s, i - 1)
  }

  predicate UnpairedBefore(s: seq<byte>, i: nat)
    requires i <= |s|
  {
    CtrlARun(s, i) % 2 == 1
  }

  predicate Triggers(s: seq<byte>, i: nat)
    requires i < |s|
  {
    (s[i] == LOWER_D || s[i] == UPPER_D) && UnpairedBefore(s, i)
  }

  /** The first position at or after `from` that triggers, or |s|. */
  function FirstTrigger(s: seq<byte>, from: nat): (i: nat)
    requires from <= |s|
    ensures from <= i <= |s|
    ensures i < |s| ==> 0 < i && Triggers(s, i) && s[i - 1] == CTRL_A
    ensures forall k | from <= k < i :: !Triggers(s, k)
    decreases |s| - from
  {
    if from == |s| || Triggers(s, from) then from else FirstTrigger(s, from + 1)
  }

  datatype Filtered = Filtered(out: seq<byte>, held: bool, detach: bool)

  /** What all the bytes s not yet passed on amount to. */
  function Outcome(s: seq<byte>): Filtered {
    var i := FirstTrigger(s, 0);
    if i < |s| then Filtered(s[..i - 1], false, true)
    else if UnpairedBefore(s, |s|) then Filtered(s[..|s| - 1], true, false)
    else Filtered(s, false, false)
  }

  /** What filterPtyInput makes of `data` after a possibly held Ctrl+A. */
  function Filter(held: bool, data: seq<byte>): Filtered {
    Outcome(Pending(held) + data)
  }

  lemma {:induction false} RunOfPrefix(s: seq<byte>, t: seq<byte>, i: nat)
    requires i <= |s|
    ensures CtrlARun(s + t, i) == CtrlARun(s, i)
  {
    if i > 0 {
      RunOfPrefix(s, t, i - 1);
    }
  }

  lemma {:induction false} FirstTriggerFrom(s: seq<byte>, from: nat, i: nat)
    requires from <= i <= |s|
    requires forall k | from <= k < i :: !Triggers(s, k)
    requires i == |s| || Triggers(s, i)
    ensures FirstTrigger(s, from) == i
    decreases |s| - from
  {
    if from < i {
      FirstTriggerFrom(s, from + 1, i);
    }
  }

  /** An unfinished prefix s can be forgotten, but for the parity of its trailing run. */
  lemma {:induction false} RunAfterPrefix(s: seq<byte>, b: seq<byte>, j: nat)
    requires j <= |b|
    ensures var p := Pending(UnpairedBefore(s, |s|));
            UnpairedBefore(s + b, |s| + j) == UnpairedBefore(p + b, |p| + j)
  {
    var p := Pending(UnpairedBefore(s, |s|));
    if j == 0 {
      RunOfPrefix(s, b, |s|);
      RunOfPrefix(p, b, |p|);
    } else {
      RunAfterPrefix(s, b, j - 1);
      assert (s + b)[|s| + j - 1] == b[j - 1] == (p + b)[|p| + j - 1];
    }
  }

  /** Without a detach nothing is lost: output and held byte together are the input. */
  lemma NoDetachPassesEverything(held: bool, data: seq<byte>)
    ensures var r := Filter(held, data);
            if r.detach then !r.held else r.out + Pending(r.held) == Pending(held) + data
  {
    var s := Pending(held) + data;
    if !Filter(held, data).detach && UnpairedBefore(s, |s|) {
      assert s == s[..|s| - 1] + [CTRL_A];
    }
  }

  /** Once s has passed without a detach, only its held Ctrl+A matters to what follows. */
  lemma FirstTriggerShifts(s: seq<byte>, b: seq<byte>)
    requires FirstTrigger(s, 0) == |s|
    ensures var p := Pending(UnpairedBefore(s, |s|));
            FirstTrigger(s + b, 0) - |s| == FirstTrigger(p + b, 0) - |p| >= 0
  {
    var p := Pending(UnpairedBefore(s, |s|));
    forall k | 0 <= k < |s|
      ensures !Triggers(s + b, k)
    {
      RunOfPrefix(s, b, k);
      assert !Triggers(s, k);
    }
    forall k | |s| <= k < |s + b|
      ensures Triggers(s + b, k) == Triggers(p + b, |p| + (k - |s|))
    {
      RunAfterPrefix(s, b, k - |s|);
    }
    var i := FirstTrigger(p + b, 0);
    assert |p| == 1 ==> p[0] == CTRL_A && !Triggers(p + b, 0);
    FirstTriggerFrom(s + b, 0, |s| + (i - |p|));
  }

  lemma TakeThrough<T>(s: seq<T>, t: seq<T>, n: nat)
    requires n <= |t|
    ensures (s + t)[..|s| + n] == s + t[..n]
  {
  }

  lemma OutcomeShifts(kept: seq<byte>, rest: seq<byte>)
    requires FirstTrigger(kept + rest, 0) == |kept| + FirstTrigger(rest, 0)
    requires UnpairedBefore(kept + rest, |kept + rest|) == UnpairedBefore(rest, |rest|)
    ensures Outcome(kept + rest) == Outcome(rest).(out := kept + Outcome(rest).out)
  {
    assert rest == [] ==> !UnpairedBefore(rest, |rest|);
    hide FirstTrigger, UnpairedBefore;
    var i := FirstTrigger(rest, 0);
    if 0 < i < |rest| {
      TakeThrough(kept, rest, i - 1);
    } else if |rest| > 0 {
      TakeThrough(kept, rest, |rest| - 1);
    }
  }

  lemma OutcomeResumes(s: seq<byte>, b: seq<byte>)
    requires FirstTrigger(s, 0) == |s|
    ensures var p := Pending(UnpairedBefore(s, |s|));
            Outcome(s + b) == Outcome(p + b).(out := s[..|s| - |p|] + Outcome(p + b).out)
  {
    hide Outcome;
    var p := Pending(UnpairedBefore(s, |s|));
    assert s + b == s[..|s| - |p|] + (p + b);
    FirstTriggerShifts(s, b);
    RunAfterPrefix(s, b, |b|);
    OutcomeShifts(s[..|s| - |p|], p + b);
  }

  lemma TriggersInPrefix(s: seq<byte>, b: seq<byte>, k: nat)
    requires k < |s|
    ensures Triggers(s + b, k) == Triggers(s, k)
  {
    RunOfPrefix(s, b, k);
  }

  lemma FirstTriggerStays(s: seq<byte>, b: seq<byte>)
    requires FirstTrigger(s, 0) < |s|
    ensures FirstTrigger(s + b, 0) == FirstTrigger(s, 0)
  {
    hide *;
    var i := FirstTrigger(s, 0);
    forall k | 0 <= k <= i
      ensures Triggers(s + b, k) == Triggers(s, k)
    {
      TriggersInPrefix(s, b, k);
    }
    FirstTriggerFrom(s + b, 0, i);
  }

  lemma OutcomeStays(s: seq<byte>, b: seq<byte>)
    requires FirstTrigger(s, 0) < |s|
    ensures Outcome(s).detach && Outcome(s + b) == Outcome(s)
  {
    FirstTriggerStays(s, b);
    hide FirstTrigger, UnpairedBefore;
    var i := FirstTrigger(s, 0);
    assert (s + b)[..i - 1] == s[..i - 1];
  }

  /** What an outcome without a detach has let through. */
  lemma Undetached(s: seq<byte>)
    requires FirstTrigger(s, 0) == |s|
    ensures var r := Outcome(s);
            !r.detach && r.held == UnpairedBefore(s, |s|) && r.out == s[..|s| - |Pending(r.held)|]
  {
    assert s[..|s|] == s;
  }

  /** One call on a + b is a call on a and then, if that did not detach, one on b. */
  lemma FilterSplits(held: bool, a: seq<byte>, b: seq<byte>)
    ensures var whole, first := Filter(held, a + b), Filter(held, a);
            if first.detach then whole == first
            else whole == Filter(first.held, b).(out := first.out + Filter(first.held, b).out)
  {
    var s := Pending(held) + a;
    assert Pending(held) + (a + b) == s + b;
    hide FirstTrigger, UnpairedBefore, Outcome, Pending;
    if FirstTrigger(s, 0) < |s| {
      OutcomeStays(s, b);
    } else {
      Undetached(s);
      OutcomeResumes(s, b);
    }
  }

  // The same, byte by byte.

  /** A d or D stands at i, right behind a run of exactly n Ctrl+A bytes, and n is odd. */
  predicate DetachKeyAfter(s: seq<byte>, i: nat, n: nat) {
    && n <= i < |s| && n % 2 == 1 && (s[i] == 0x64 || s[i] == 0x44)
    && (forall k | i - n <= k < i :: s[k] == 0x01)
    && (i == n || s[i - n - 1] != 0x01)
  }

  ghost predicate DetachKeyAt(s: seq<byte>, i: nat) {
    exists n: nat :: DetachKeyAfter(s, i, n)
  }

  lemma {:induction false} RunMeans(s: seq<byte>, i: nat)
    requires i <= |s|
    ensures var n := CtrlARun(s, i);
            n <= i && (forall k | i - n <= k < i :: s[k] == 0x01) && (i == n || s[i - n - 1] != 0x01)
  {
    if i > 0 && s[i - 1] == CTRL_A {
      RunMeans(s, i - 1);
    }
  }

  lemma TriggersIff(s: seq<byte>, i: nat)
    requires i < |s|
    ensures Triggers(s, i) <==> DetachKeyAt(s, i)
  {
    RunMeans(s, i);
    var m := CtrlARun(s, i);
    hide CtrlARun;
    if Triggers(s, i) {
      assert DetachKeyAfter(s, i, m);
    }
    if DetachKeyAt(s, i) {
      var n: nat :| DetachKeyAfter(s, i, n);
      assert n == m;
    }
  }

  /**
   One call detaches exactly when there is a detach key in its bytes, those of a held Ctrl+A included. Then
   it has passed on what stands before the Ctrl+A of the first such key, and holds nothing.
   */
  lemma DetachMeans(held: bool, data: seq<byte>)
    ensures var s, r := (if held then [0x01] else []) + data, Filter(held, data);
            && (!r.detach ==> forall i: nat :: !DetachKeyAt(s, i))
            && (r.detach ==> !r.held && exists i: nat :: IsFirstKey(s, i) && r.out == s[..i - 1])
  {
    var s, r := Pending(held) + data, Filter(held, data);
    assert s == (if held then [0x01] else []) + data;
    var i := FirstTrigger(s, 0);
    forall k: nat | k < |s|
      ensures Triggers(s, k) <==> DetachKeyAt(s, k)
    {
      TriggersIff(s, k);
    }
    hide FirstTrigger, UnpairedBefore, Triggers, DetachKeyAfter;
    if r.detach {
      assert IsFirstKey(s, i) && r.out == s[..i - 1];
    } else {
      forall k: nat
        ensures !DetachKeyAt(s, k)
      {
        if k >= |s| {
          NoKeyBeyond(s, k);
        }
      }
    }
  }

  lemma NoKeyBeyond(s: seq<byte>, k: nat)
    requires k >= |s|
    ensures !DetachKeyAt(s, k)
  {
  }

  ghost predicate IsFirstKey(s: seq<byte>, i: nat) {
    0 < i < |s| && DetachKeyAt(s, i) && forall k: nat | k < i :: !DetachKeyAt(s, k)
  }

  /** Chunk after chunk until one detaches, as the attached-client loop reads them. */
  function FilterChunks(held: bool, chunks: seq<seq<byte>>): Filtered
    decreases |chunks|
  {
    if chunks == [] then Filtered([], held, false)
    else
      var first := Filter(held, chunks[0]);
      if first.detach then first
      else
        var rest := FilterChunks(first.held, chunks[1..]);
        rest.(out := first.out + rest.out)
  }

  /** However the client's bytes are cut into messages, output, held byte and detach are the same. */
  lemma {:induction false} ChunkingIsInvisible(held: bool, chunks: seq<seq<byte>>)
    ensures FilterChunks(held, chunks) == Filter(held, Flatten(chunks))
    decreases |chunks|
  {
    if chunks == [] {
      assert Pending(held) + [] == Pending(held);
      assert held ==> CtrlARun(Pending(held), 1) == 1 + CtrlARun(Pending(held), 0);
    } else {
      ChunkingIsInvisible(Filter(held, chunks[0]).held, chunks[1..]);
      FilterSplits(held, chunks[0], Flatten(chunks[1..]));
    }
  }

  /** What reaches the PTY for one message when detaching is switched off. */
  function PassedOn(held: bool, data: seq<byte>): seq<byte> {
    var r := Filter(held, data);
    if r.detach then r.out + [CTRL_A, LOWER_D] else r.out
  }

  /** What the PTY has got after all messages, together with a Ctrl+A still held back. */
  function PassedOnAll(held: bool, chunks: seq<seq<byte>>): seq<byte>
    decreases |chunks|
  {
    if chunks == [] then Pending(held)
    else PassedOn(held, chunks[0]) + PassedOnAll(Filter(held, chunks[0]).held, chunks[1..])
  }

  /** The message holds no detach sequence, or one in lower case that ends it. */
  predicate SurvivesDisabledDetach(held: bool, data: seq<byte>) {
    var s := Pending(held) + data;
    var i := FirstTrigger(s, 0);
    i == |s| || (i == |s| - 1 && s[i] == LOWER_D)
  }

  predicate AllSurvive(held: bool, chunks: seq<seq<byte>>)
    decreases |chunks|
  {
    chunks == [] || (SurvivesDisabledDetach(held, chunks[0]) && AllSurvive(Filter(held, chunks[0]).held, chunks[1..]))
  }

  lemma OneMessagePassesUnchanged(held: bool, data: seq<byte>)
    ensures var after := Filter(held, data).held;
            && |PassedOn(held, data)| + |Pending(after)| <= |Pending(held) + data|
            && (PassedOn(held, data) + Pending(after) == Pending(held) + data <==> SurvivesDisabledDetach(held, data))
  {
    NoDetachPassesEverything(held, data);
    var s := Pending(held) + data;
    var i := FirstTrigger(s, 0);
    if i < |s| {
      assert PassedOn(held, data) == s[..i - 1] + [CTRL_A, LOWER_D];
      if i == |s| - 1 && s[i] == LOWER_D {
        assert s == s[..i - 1] + [CTRL_A, LOWER_D];
      } else if i == |s| - 1 {
        assert PassedOn(held, data)[i] != s[i];
      }
    }
  }

  lemma {:induction false} NothingIsInvented(held: bool, chunks: seq<seq<byte>>)
    ensures |PassedOnAll(held, chunks)| <= |Pending(held)| + |Flatten(chunks)|
    decreases |chunks|
  {
    if chunks != [] {
      OneMessagePassesUnchanged(held, chunks[0]);
      NothingIsInvented(Filter(held, chunks[0]).held, chunks[1..]);
    }
  }

  /**
   With detaching switched off the PTY is meant to get the client's bytes unchanged. It does exactly
   when every detach sequence is in lower case and ends its message.
   */
  lemma {:induction false} DisabledDetachIsTransparent(held: bool, chunks: seq<seq<byte>>)
    ensures PassedOnAll(held, chunks) == Pending(held) + Flatten(chunks) <==> AllSurvive(held, chunks)
    decreases |chunks|
  {
    if chunks == [] {
      assert Pending(held) + [] == Pending(held);
    } else {
      ChunksUnfold(held, chunks);
      hide *;
      var mid, rest := Filter(held, chunks[0]).held, chunks[1..];
      DisabledDetachIsTransparent(mid, rest);
      NothingIsInvented(mid, rest);
      OneMessagePassesUnchanged(held, chunks[0]);
      HeldMeansUndetached(held, chunks[0]);
      PiecesAgree(PassedOn(held, chunks[0]), mid, PassedOnAll(mid, rest), Pending(held) + chunks[0], Flatten(rest));
    }
  }

  lemma ChunksUnfold(held: bool, chunks: seq<seq<byte>>)
    requires chunks != []
    ensures var mid, rest := Filter(held, chunks[0]).held, chunks[1..];
            && PassedOnAll(held, chunks) == PassedOn(held, chunks[0]) + PassedOnAll(mid, rest)
            && Pending(held) + Flatten(chunks) == Pending(held) + chunks[0] + Flatten(rest)
            && AllSurvive(held, chunks) == (SurvivesDisabledDetach(held, chunks[0]) && AllSurvive(mid, rest))
  {
    hide PassedOn, Filter, SurvivesDisabledDetach, Pending;
    assert Pending(held) + (chunks[0] + Flatten(chunks[1..])) == Pending(held) + chunks[0] + Flatten(chunks[1..]);
  }

  /** A byte is held back only by a message that did not detach, so nothing else of that message is lost. */
  lemma HeldMeansUndetached(held: bool, data: seq<byte>)
    ensures var after := Filter(held, data).held;
            after ==> PassedOn(held, data) + Pending(after) == Pending(held) + data
  {
    NoDetachPassesEverything(held, data);
    hide Filter, Pending;
  }

  /** Two pieces that can only shrink their inputs agree with them together exactly when each does. */
  lemma PiecesAgree(x: seq<byte>, mid: bool, y: seq<byte>, a: seq<byte>, b: seq<byte>)
    requires |x| + |Pending(mid)| <= |a| && |y| <= |Pending(mid) + b|
    requires mid ==> x + Pending(mid) == a
    ensures x + y == a + b <==> x + Pending(mid) == a && y == Pending(mid) + b
  {
    var p := Pending(mid);
    if x + y == a + b {
      assert x == (x + y)[..|x|] == a[..|x|];
      assert x + p == a;
      assert x + (p + b) == a + b;
      assert y == (x + y)[|x|..] == (x + (p + b))[|x|..] == p + b;
    }
    assert x + (p + b) == x + p + b;
  }

  /** One more byte after an undetached prefix. */
  lemma ByteExtends(s: seq<byte>, b: byte)
    requires FirstTrigger(s, 0) == |s|
    ensures var odd := UnpairedBefore(s, |s|);
            && FirstTrigger(s + [b], 0) == (if odd && (b == LOWER_D || b == UPPER_D) then |s| else |s| + 1)
            && UnpairedBefore(s + [b], |s| + 1) == (b == CTRL_A && !odd)
  {
    RunExtends(s, b);
    hide FirstTrigger, UnpairedBefore;
    var at := if Triggers(s + [b], |s|) then |s| else |s| + 1;
    forall k | 0 <= k < at
      ensures !Triggers(s + [b], k)
    {
      if k < |s| {
        TriggersInPrefix(s, [b], k);
      }
    }
    FirstTriggerFrom(s + [b], 0, at);
  }

  lemma RunExtends(s: seq<byte>, b: byte)
    ensures UnpairedBefore(s + [b], |s|) == UnpairedBefore(s, |s|)
    ensures UnpairedBefore(s + [b], |s| + 1) == (b == CTRL_A && !UnpairedBefore(s, |s|))
  {
    RunOfPrefix(s, [b], |s|);
    assert CtrlARun(s + [b], |s| + 1) == if b != CTRL_A then 0 else 1 + CtrlARun(s, |s|);
  }

  /** The loop of filterPtyInput has read s without a detach. */
  ghost predicate HasRead(s: seq<byte>, out: seq<byte>, held: bool) {
    && FirstTrigger(s, 0) == |s|
    && held == UnpairedBefore(s, |s|)
    && out + Pending(held) == s
  }

  lemma HasReadNothing(held: bool)
    ensures HasRead(Pending(held), [], held)
  {
    assert held ==> CtrlARun(Pending(held), 1) == 1 + CtrlARun(Pending(held), 0);
  }

  lemma HasReadByte(s: seq<byte>, out: seq<byte>, held: bool, b: byte)
    requires HasRead(s, out, held) && !(held && (b == LOWER_D || b == UPPER_D))
    ensures HasRead(s + [b],
                    if held then out + [CTRL_A, b] else if b == CTRL_A then out else out + [b],
                    !held && b == CTRL_A)
  {
    ByteExtends(s, b);
    hide FirstTrigger, UnpairedBefore;
    assert out + [CTRL_A, b] == out + [CTRL_A] + [b];
    assert out + [b] + [] == out + [b];
  }

  lemma HasReadAll(held: bool, data: seq<byte>, out: seq<byte>, after: bool)
    requires HasRead(Pending(held) + data, out, after)
    ensures Filter(held, data) == Filtered(out, after, false)
  {
    Undetached(Pending(held) + data);
    hide FirstTrigger, UnpairedBefore, Outcome;
    assert (out + Pending(after))[..|out|] == out;
  }

  lemma DetachKeyEnds(s: seq<byte>, b: byte)
    requires FirstTrigger(s, 0) == |s| && UnpairedBefore(s, |s|)
    requires b == LOWER_D || b == UPPER_D
    ensures |s| > 0 && Outcome(s + [b]) == Filtered(s[..|s| - 1], false, true)
  {
    ByteExtends(s, b);
    assert (s + [b])[..|s| - 1] == s[..|s| - 1];
  }

  lemma DetachesAt(held: bool, data: seq<byte>, k: nat, out: seq<byte>)
    requires k < |data| && HasRead(Pending(held) + data[..k], out, true)
    requires data[k] == LOWER_D || data[k] == UPPER_D
    ensures Filter(held, data) == Filtered(out, false, true)
  {
    var s, a := Pending(held) + data[..k], data[..k + 1];
    DetachKeyEnds(s, data[k]);
    hide FirstTrigger, UnpairedBefore, Outcome;
    assert s[..|s| - 1] == out;
    assert Pending(held) + a == s + [data[k]];
    assert data == a + data[k + 1..];
    FilterSplits(held, a, data[k + 1..]);
  }

  lemma NextByte(before: seq<byte>, data: seq<byte>, k: nat)
    requires k < |data|
    ensures before + data[..k + 1] == before + data[..k] + [data[k]]
  {
  }

  /** How one message leaves the attached-client loop. */
  datatype LoopEnd = GoesOn | Detached | PtyFailed

  /** The state a client loop keeps between messages. */
  class ClientInput {
    var prevCtrlA: bool

    constructor ()
      ensures !prevCtrlA
    {
      prevCtrlA := false;
    }

    method FilterPtyInput(data: seq<byte>) returns (out: seq<byte>, detach: bool)
      modifies this
      ensures Filtered(out, prevCtrlA, detach) == Filter(old(prevCtrlA), data)
    {
      ghost var held := prevCtrlA;
      ghost var before := Pending(held);
      out := [];
      HasReadNothing(held);
      assert before + data[..0] == before;
      hide *;
      for k := 0 to |data|
        invariant HasRead(before + data[..k], out, prevCtrlA)
      {
        var b := data[k];
        NextByte(before, data, k);
        if prevCtrlA {
          if b == LOWER_D || b == UPPER_D {
            DetachesAt(held, data, k, out);
            prevCtrlA := false;
            return out, true;
          }
          HasReadByte(before + data[..k], out, prevCtrlA, b);
          prevCtrlA := false;
          out := out + [CTRL_A, b];
          continue;
        }
        HasReadByte(before + data[..k], out, prevCtrlA, b);
        if b == CTRL_A {
          prevCtrlA := true;
          continue;
        }
        out := out + [b];
      }
      assert data[..|data|] == data;
      HasReadAll(held, data, out, prevCtrlA);
      return out, false;
    }

    /**
     One data message of the attached-client loop: what is handed to the PTY, and whether the loop goes on.
     ptyOk says whether the PTY takes the filtered bytes; whether it takes a passed-through detach sequence
     is not looked at.
     */
    method Deliver(data: seq<byte>, allowSessionDetach: bool, ptyOk: bool) returns (pty: seq<byte>, end: LoopEnd)
      modifies this
      ensures var r := Filter(old(prevCtrlA), data);
              && prevCtrlA == r.held
              && (end == PtyFailed <==> r.out != [] && !ptyOk)
              && (end == Detached <==> r.detach && allowSessionDetach && end != PtyFailed)
              && pty == (if allowSessionDetach || end == PtyFailed then r.out else PassedOn(old(prevCtrlA), data))
              && pty == r.out + if r.detach && !allowSessionDetach && end != PtyFailed then [0x01, 0x64] else []
    {
      var detach;
      pty, detach := FilterPtyInput(data);
      hide Filter;
      if |pty| > 0 && !ptyOk {
        return pty, PtyFailed;
      }
      if detach {
        if !allowSessionDetach {
          pty := pty + [CTRL_A, LOWER_D];
        } else {
          return pty, Detached;
        }
      }
      return pty, GoesOn;
    }
  }
}
