/** Mount paths as the kernel writes them in mountinfo, with octal escapes (internal/system/storage.go). */
module MountPaths {
  import opened Bytes

  const ZERO: byte := 0x30

  predicate IsOctal(b: byte) { 0x30 <= b <= 0x37 }

  /** An escape stands at i: a backslash and three octal digits that make a byte. */
  predicate EscapeAt(s: seq<byte>, i: nat) {
    && i + 3 < |s| && s[i] == BACKSLASH
    && IsOctal(s[i + 1]) && IsOctal(s[i + 2]) && IsOctal(s[i + 3])
    && OctalValue(s, i) < 256
  }

  function OctalValue(s: seq<byte>, i: nat): int
    requires i + 3 < |s|
  {
    64 * (s[i + 1] as int - 48) + 8 * (s[i + 2] as int - 48) + (s[i + 3] as int - 48)
  }

  /** Reading from i: every escape met is its byte, everything else stays. */
  function Unescape(s: seq<byte>, i: nat): seq<byte>
    requires i <= |s|
    decreases |s| - i
  {
    if i == |s| then []
    else if EscapeAt(s, i) then [OctalValue(s, i) as byte] + Unescape(s, i + 4)
    else [s[i]] + Unescape(s, i + 1)
  }

  method UnescapeMountInfoPath(s: seq<byte>) returns (r: seq<byte>)
    ensures r == Unescape(s, 0)
  {
    if BACKSLASH !in s {
      PlainIsUnchanged(s, 0);
      return s;
    }
    r := [];
    var i := 0;
    hide Unescape;
    while i < |s|
      invariant i <= |s|
      invariant r + Unescape(s, i) == Unescape(s, 0)
      decreases |s| - i
    {
      UnescapeStep(s, i, r);
      if s[i] == BACKSLASH && i + 3 < |s| {
        if IsOctal(s[i + 1]) && IsOctal(s[i + 2]) && IsOctal(s[i + 3]) {
          var v := OctalValue(s, i);
          if v < 256 {
            r := r + [v as byte];
            i := i + 4;
            continue;
          }
        }
      }
      r := r + [s[i]];
      i := i + 1;
    }
    assert Unescape(s, |s|) == [] by { UnescapeEnd(s); }
  }

  lemma UnescapeEnd(s: seq<byte>)
    ensures Unescape(s, |s|) == []
  {
  }

  lemma UnescapeStep(s: seq<byte>, i: nat, r: seq<byte>)
    requires i < |s|
    ensures r + Unescape(s, i) ==
            if EscapeAt(s, i) then r + [OctalValue(s, i) as byte] + Unescape(s, i + 4)
            else r + [s[i]] + Unescape(s, i + 1)
  {
  }

  /** A path without a backslash is itself. */
  lemma {:induction false} PlainIsUnchanged(s: seq<byte>, i: nat)
    requires i <= |s| && BACKSLASH !in s[i..]
    ensures Unescape(s, i) == s[i..]
    decreases |s| - i
  {
    if i < |s| {
      assert s[i] in s[i..];
      assert s[i..] == [s[i]] + s[i + 1..];
      PlainIsUnchanged(s, i + 1);
    }
  }

  /** A backslash and three octal digits that make a byte are read as that byte: \040 is a space. */
  lemma EscapeIsRead(a: int, b: int, c: int, rest: seq<byte>)
    requires 0 <= a < 8 && 0 <= b < 8 && 0 <= c < 8 && 64 * a + 8 * b + c < 256
    ensures Unescape([0x5c, (0x30 + a) as byte, (0x30 + b) as byte, (0x30 + c) as byte] + rest, 0)
         == [(64 * a + 8 * b + c) as byte] + Unescape(rest, 0)
  {
    var e: seq<byte> := [0x5c, (0x30 + a) as byte, (0x30 + b) as byte, (0x30 + c) as byte];
    assert EscapeAt(e + rest, 0) && OctalValue(e + rest, 0) == 64 * a + 8 * b + c;
    UnescapeSuffix(e, rest, 0);
  }

  /** Any other byte is read as itself: one that is no backslash, or a backslash without such digits after it. */
  lemma OtherIsRead(s: seq<byte>)
    requires s != []
    requires s[0] == 0x5c && |s| >= 4 ==>
               !(0x30 <= s[1] < 0x38 && 0x30 <= s[2] < 0x38 && 0x30 <= s[3] < 0x38) || s[1] > 0x33
    ensures Unescape(s, 0) == [s[0]] + Unescape(s[1..], 0)
  {
    hide *;
    NoEscapeAt(s);
    ReadAsItself(s);
    UnescapeTail(s, 1);
  }

  lemma UnescapeTail(s: seq<byte>, k: nat)
    requires k <= |s|
    ensures Unescape(s, k) == Unescape(s[k..], 0)
  {
    hide *;
    var a, b := s[..k], s[k..];
    assert a + b == s;
    UnescapeSuffix(a, b, 0);
  }

  lemma NoEscapeAt(s: seq<byte>)
    requires s != []
    requires s[0] == 0x5c && |s| >= 4 ==>
               !(0x30 <= s[1] < 0x38 && 0x30 <= s[2] < 0x38 && 0x30 <= s[3] < 0x38) || s[1] > 0x33
    ensures !EscapeAt(s, 0)
  {
  }

  lemma ReadAsItself(s: seq<byte>)
    requires s != [] && !EscapeAt(s, 0)
    ensures Unescape(s, 0) == [s[0]] + Unescape(s, 1)
  {
  }

  // The kernel's side.

  function OctalDigit(n: int): byte
    requires 0 <= n < 8
  {
    ZERO + n as byte
  }

  function EscapeByte(b: byte): seq<byte> {
    var n := b as int;
    [BACKSLASH, OctalDigit(n / 64), OctalDigit(n / 8 % 8), OctalDigit(n % 8)]
  }

  /** Escapes the bytes of a set; for mount points it is space, tab, newline and backslash. */
  function Escape(s: seq<byte>, special: set<byte>): seq<byte> {
    if s == [] then []
    else (if s[0] in special then EscapeByte(s[0]) else [s[0]]) + Escape(s[1..], special)
  }

  const MOUNT_SPECIAL: set<byte> := {0x20, 0x09, 0x0a, BACKSLASH}

  lemma EscapedByteReadsBack(b: byte, rest: seq<byte>)
    ensures var s := EscapeByte(b) + rest;
            EscapeAt(s, 0) && OctalValue(s, 0) == b as int
  {
    var n := b as int;
    assert n == 64 * (n / 64) + 8 * (n / 8 % 8) + n % 8;
  }

  /** What is read at i, and where the reading goes on. */
  function ReadAt(s: seq<byte>, i: nat): (byte, nat)
    requires i < |s|
  {
    if EscapeAt(s, i) then (OctalValue(s, i) as byte, 4) else (s[i], 1)
  }

  lemma ReadStep(s: seq<byte>, i: nat)
    requires i < |s|
    ensures var r := ReadAt(s, i); 0 < r.1 <= |s| - i && Unescape(s, i) == [r.0] + Unescape(s, i + r.1)
  {
  }

  lemma ReadAtSuffix(a: seq<byte>, s: seq<byte>, i: nat)
    requires i < |s|
    ensures ReadAt(a + s, |a| + i) == ReadAt(s, i)
  {
    EscapeAtSuffix(a, s, i);
    hide EscapeAt, OctalValue;
  }

  /** Reading depends only on what follows. */
  lemma {:induction false} UnescapeSuffix(a: seq<byte>, s: seq<byte>, i: nat)
    requires i <= |s|
    ensures Unescape(a + s, |a| + i) == Unescape(s, i)
    decreases |s| - i
  {
    hide *;
    if i < |s| {
      ReadAtSuffix(a, s, i);
      ReadStep(s, i);
      ReadStep(a + s, |a| + i);
      var next := i + ReadAt(s, i).1;
      assert |a| + i + ReadAt(s, i).1 == |a| + next;
      UnescapeSuffix(a, s, next);
    } else {
      UnescapeEnd(a + s);
      UnescapeEnd(s);
    }
  }

  lemma EscapeAtSuffix(a: seq<byte>, s: seq<byte>, i: nat)
    requires i < |s|
    ensures (a + s)[|a| + i] == s[i]
    ensures EscapeAt(a + s, |a| + i) == EscapeAt(s, i)
    ensures EscapeAt(s, i) ==> OctalValue(a + s, |a| + i) == OctalValue(s, i)
  {
    if i + 3 < |s| {
      assert (a + s)[|a| + i + 1] == s[i + 1] && (a + s)[|a| + i + 2] == s[i + 2] && (a + s)[|a| + i + 3] == s[i + 3];
    }
  }

  /** Whatever set of bytes is escaped, as long as the backslash is: reading undoes writing, for every path. */
  lemma {:induction false} UnescapeInvertsEscape(s: seq<byte>, special: set<byte>)
    requires BACKSLASH in special
    ensures Unescape(Escape(s, special), 0) == s
  {
    if s != [] {
      var rest := Escape(s[1..], special);
      UnescapeInvertsEscape(s[1..], special);
      if s[0] in special {
        EscapedByteReadsBack(s[0], rest);
        UnescapeSuffix(EscapeByte(s[0]), rest, 0);
      } else {
        UnescapeSuffix([s[0]], rest, 0);
        assert ([s[0]] + rest)[0] == s[0] != BACKSLASH;
      }
    }
  }

  /** What the kernel writes for the four bytes of a mount point that it escapes: \040, \011, \012 and \134. */
  lemma KernelEscapes()
    ensures Escape([0x20], MOUNT_SPECIAL) == [0x5c, 0x30, 0x34, 0x30]
    ensures Escape([0x09], MOUNT_SPECIAL) == [0x5c, 0x30, 0x31, 0x31]
    ensures Escape([0x0a], MOUNT_SPECIAL) == [0x5c, 0x30, 0x31, 0x32]
    ensures Escape([0x5c], MOUNT_SPECIAL) == [0x5c, 0x31, 0x33, 0x34]
    ensures forall b: byte | b != 0x20 && b != 0x09 && b != 0x0a && b != 0x5c :: b !in MOUNT_SPECIAL
  {
  }

  lemma MountPointsReadBack(path: seq<byte>)
    ensures Unescape(Escape(path, MOUNT_SPECIAL), 0) == path
  {
    UnescapeInvertsEscape(path, MOUNT_SPECIAL);
  }
}
