/** UTF-8 (RFC 3629) on bytes: which sequences are characters, and the repair of text
    that holds others. */
module Utf8 {
  import opened Bytes

  predicate Continuation(b: Byte) {
    0x80 <= b <= 0xBF
  }

  /** Bytes of the well-formed character at the start, 0 if there is none. */
  function RuneLen(s: seq<Byte>): (n: nat)
    ensures n <= 4 && n <= |s|
  {
    if s == [] then 0
    else if s[0] < 0x80 then 1
    else if 0xC2 <= s[0] <= 0xDF && |s| >= 2 && Continuation(s[1]) then 2
    else if 0xE0 <= s[0] <= 0xEF && |s| >= 3 && Continuation(s[1]) && Continuation(s[2])
            && (s[0] == 0xE0 ==> s[1] >= 0xA0) && (s[0] == 0xED ==> s[1] <= 0x9F) then 3
    else if 0xF0 <= s[0] <= 0xF4 && |s| >= 4 && Continuation(s[1]) && Continuation(s[2]) && Continuation(s[3])
            && (s[0] == 0xF0 ==> s[1] >= 0x90) && (s[0] == 0xF4 ==> s[1] <= 0x8F) then 4
    else 0
  }

  predicate WellFormed(s: seq<Byte>)
    decreases |s|
  {
    s == [] || (RuneLen(s) > 0 && WellFormed(s[RuneLen(s)..]))
  }

  const NEWLINE: Byte := 10
  const REPLACEMENT: seq<Byte> := [0xEF, 0xBF, 0xBD]

  /** Each run of bytes that are no characters becomes one replacement character; `inRun`: the
      previous byte was part of such a run. */
  function RepairFrom(s: seq<Byte>, inRun: bool): seq<Byte>
    decreases |s|
  {
    if s == [] then []
    else if RuneLen(s) == 0 then (if inRun then [] else REPLACEMENT) + RepairFrom(s[1..], true)
    else s[..RuneLen(s)] + RepairFrom(s[RuneLen(s)..], false)
  }

  function Repair(s: seq<Byte>): seq<Byte> {
    RepairFrom(s, false)
  }

  // A character never reaches a newline that follows its first byte.
  lemma NewlineEndsRunes(a: seq<Byte>, b: seq<Byte>)
    requires a != []
    ensures RuneLen(a + [NEWLINE] + b) == RuneLen(a + [NEWLINE]) <= |a|
  {
    var s, t := a + [NEWLINE] + b, a + [NEWLINE];
    assert forall i :: 0 <= i <= |a| ==> s[i] == t[i];
    assert !Continuation(t[|a|]);
  }

  lemma SlicePast(a: seq<Byte>, c: seq<Byte>, n: nat)
    requires n <= |a|
    ensures (a + c)[n..] == a[n..] + c && (a + c)[..n] == a[..n]
  {
  }

  lemma NewlineFirst(b: seq<Byte>, inRun: bool)
    ensures RepairFrom([NEWLINE] + b, inRun) == [NEWLINE] + RepairFrom(b, false)
  {
    var s := [NEWLINE] + b;
    assert RuneLen(s) == 1 && s[1..] == b;
  }

  lemma RepairNothing(inRun: bool)
    ensures RepairFrom([], inRun) == []
  {
  }

  // How repair goes on after a character or a stray byte.
  lemma RepairNext(s: seq<Byte>, inRun: bool)
    requires s != []
    ensures RepairFrom(s, inRun)
         == if RuneLen(s) == 0 then (if inRun then [] else REPLACEMENT) + RepairFrom(s[1..], true)
            else s[..RuneLen(s)] + RepairFrom(s[RuneLen(s)..], false)
  {
    hide RuneLen;
  }

  lemma Regroup(a: seq<Byte>, b: seq<Byte>, c: seq<Byte>)
    ensures a + (b + c) == (a + b) + c
  {
  }

  // One character, or one stray byte, in front of two texts that go on alike.
  lemma SameStart(s: seq<Byte>, t: seq<Byte>, inRun: bool, n: nat, tail: seq<Byte>)
    requires s != [] && t != [] && RuneLen(s) == RuneLen(t)
    requires n == (if RuneLen(s) == 0 then 1 else RuneLen(s)) && s[..n] == t[..n]
    requires RepairFrom(s[n..], RuneLen(s) == 0) == RepairFrom(t[n..], RuneLen(s) == 0) + tail
    ensures RepairFrom(s, inRun) == RepairFrom(t, inRun) + tail
  {
    hide RuneLen, RepairFrom;
    RepairNext(s, inRun);
    RepairNext(t, inRun);
    var first := if RuneLen(s) == 0 then (if inRun then [] else REPLACEMENT) else s[..n];
    Regroup(first, RepairFrom(t[n..], RuneLen(s) == 0), tail);
  }

  /** Cutting after a newline commutes with repair. */
  lemma {:induction false} RepairCut(a: seq<Byte>, b: seq<Byte>, inRun: bool)
    ensures RepairFrom(a + ([NEWLINE] + b), inRun) == RepairFrom(a + [NEWLINE], inRun) + RepairFrom(b, false)
    decreases |a|
  {
    hide RuneLen, RepairFrom;
    var s, t := a + ([NEWLINE] + b), a + [NEWLINE];
    if a == [] {
      NewlineFirst(b, inRun);
      NewlineFirst([], inRun);
      RepairNothing(false);
      assert s == [NEWLINE] + b && t == [NEWLINE] + [];
    } else {
      NewlineEndsRunes(a, b);
      assert a + [NEWLINE] + b == s;
      var n := if RuneLen(s) == 0 then 1 else RuneLen(s);
      SlicePast(a, [NEWLINE] + b, n);
      SlicePast(a, [NEWLINE], n);
      RepairCut(a[n..], b, RuneLen(s) == 0);
      SameStart(s, t, inRun, n, RepairFrom(b, false));
    }
  }

  // ---- What a character is, and what repair does to a text ----

  /** A Unicode code point that UTF-8 can write: surrogates are not. */
  predicate IsScalar(c: int) {
    0 <= c < 0xD800 || 0xE000 <= c < 0x11_0000
  }

  /** The bytes of a code point, section 3 of RFC 3629. */
  function Encode(c: int): (b: seq<Byte>)
    requires IsScalar(c)
    ensures 1 <= |b| <= 4
  {
    if c < 0x80 then [c]
    else if c < 0x800 then [0xC0 + c / 64, 0x80 + c % 64]
    else if c < 0x1_0000 then [0xE0 + c / 4096, 0x80 + c / 64 % 64, 0x80 + c % 64]
    else [0xF0 + c / 0x4_0000, 0x80 + c / 4096 % 64, 0x80 + c / 64 % 64, 0x80 + c % 64]
  }

  lemma EncodedStart(c: int, rest: seq<Byte>)
    requires IsScalar(c)
    ensures forall i :: 0 <= i < |Encode(c)| ==> (Encode(c) + rest)[i] == Encode(c)[i]
    ensures |Encode(c) + rest| >= |Encode(c)|
  {
  }

  lemma EncodedBytes(c: int)
    requires IsScalar(c)
    ensures var b := Encode(c);
            && (c < 0x80 ==> |b| == 1 && b[0] < 0x80)
            && (0x80 <= c < 0x800 ==> |b| == 2 && 0xC2 <= b[0] <= 0xDF)
            && (0x800 <= c < 0x1_0000 ==> |b| == 3 && 0xE0 <= b[0] <= 0xEF
                                          && (b[0] == 0xE0 ==> b[1] >= 0xA0) && (b[0] == 0xED ==> b[1] <= 0x9F))
            && (0x1_0000 <= c ==> |b| == 4 && 0xF0 <= b[0] <= 0xF4
                                  && (b[0] == 0xF0 ==> b[1] >= 0x90) && (b[0] == 0xF4 ==> b[1] <= 0x8F))
            && forall i :: 1 <= i < |b| ==> Continuation(b[i])
  {
  }

  lemma EncodedIsRune(c: int, rest: seq<Byte>)
    requires IsScalar(c)
    ensures RuneLen(Encode(c) + rest) == |Encode(c)|
  {
    EncodedStart(c, rest);
    EncodedBytes(c);
    hide Encode;
  }

  /** The code point at the start of a text. */
  function CodePoint(s: seq<Byte>): int
    requires RuneLen(s) > 0
  {
    var a: int := s[0];
    if RuneLen(s) == 1 then a
    else
      var b: int := s[1];
      if RuneLen(s) == 2 then (a - 0xC0) * 64 + (b - 0x80)
      else
        var c: int := s[2];
        if RuneLen(s) == 3 then (a - 0xE0) * 4096 + (b - 0x80) * 64 + (c - 0x80)
        else
          var d: int := s[3];
          (a - 0xF0) * 0x4_0000 + (b - 0x80) * 4096 + (c - 0x80) * 64 + (d - 0x80)
  }

  lemma TwoBytes(a: int, b: int)
    requires 0xC2 <= a <= 0xDF && 0x80 <= b <= 0xBF
    ensures var c := (a - 0xC0) * 64 + (b - 0x80);
            0x80 <= c < 0x800 && c / 64 == a - 0xC0 && c % 64 == b - 0x80
  {
  }

  lemma ThreeBytes(a: int, b: int, d: int)
    requires 0xE0 <= a <= 0xEF && 0x80 <= b <= 0xBF && 0x80 <= d <= 0xBF
    requires (a == 0xE0 ==> b >= 0xA0) && (a == 0xED ==> b <= 0x9F)
    ensures var c := (a - 0xE0) * 4096 + (b - 0x80) * 64 + (d - 0x80);
            && 0x800 <= c < 0x1_0000 && IsScalar(c)
            && c / 4096 == a - 0xE0 && c / 64 % 64 == b - 0x80 && c % 64 == d - 0x80
  {
    var c := (a - 0xE0) * 4096 + (b - 0x80) * 64 + (d - 0x80);
    assert c / 64 == (a - 0xE0) * 64 + (b - 0x80);
  }

  lemma FourBytes(a: int, b: int, d: int, e: int)
    requires 0xF0 <= a <= 0xF4 && 0x80 <= b <= 0xBF && 0x80 <= d <= 0xBF && 0x80 <= e <= 0xBF
    requires (a == 0xF0 ==> b >= 0x90) && (a == 0xF4 ==> b <= 0x8F)
    ensures var c := (a - 0xF0) * 0x4_0000 + (b - 0x80) * 4096 + (d - 0x80) * 64 + (e - 0x80);
            && 0x1_0000 <= c < 0x11_0000
            && c / 0x4_0000 == a - 0xF0 && c / 4096 % 64 == b - 0x80 && c / 64 % 64 == d - 0x80 && c % 64 == e - 0x80
  {
    var c := (a - 0xF0) * 0x4_0000 + (b - 0x80) * 4096 + (d - 0x80) * 64 + (e - 0x80);
    assert c / 64 == (a - 0xF0) * 4096 + (b - 0x80) * 64 + (d - 0x80);
    assert c / 4096 == (a - 0xF0) * 64 + (b - 0x80);
  }

  lemma LongRune(s: seq<Byte>)
    requires RuneLen(s) == 4
    ensures IsScalar(CodePoint(s)) && s[..4] == Encode(CodePoint(s))
  {
    FourBytes(s[0], s[1], s[2], s[3]);
    assert s[..4] == [s[0], s[1], s[2], s[3]];
  }

  lemma MiddleRune(s: seq<Byte>)
    requires RuneLen(s) == 3
    ensures IsScalar(CodePoint(s)) && s[..3] == Encode(CodePoint(s))
  {
    ThreeBytes(s[0], s[1], s[2]);
    assert s[..3] == [s[0], s[1], s[2]];
  }

  lemma ShortRune(s: seq<Byte>)
    requires 0 < RuneLen(s) <= 2
    ensures IsScalar(CodePoint(s)) && s[..RuneLen(s)] == Encode(CodePoint(s))
  {
    if RuneLen(s) == 1 {
      assert s[..1] == [s[0]];
    } else {
      TwoBytes(s[0], s[1]);
      assert s[..2] == [s[0], s[1]];
    }
  }

  /** The reader finds a character only where the bytes of a code point stand. */
  lemma RuneIsEncoded(s: seq<Byte>)
    requires RuneLen(s) > 0
    ensures IsScalar(CodePoint(s)) && s[..RuneLen(s)] == Encode(CodePoint(s))
  {
    hide Encode, CodePoint, IsScalar;
    if RuneLen(s) == 4 {
      LongRune(s);
    } else if RuneLen(s) == 3 {
      MiddleRune(s);
    } else {
      ShortRune(s);
    }
  }

  ghost predicate StartsCharacter(s: seq<Byte>) {
    exists c :: IsScalar(c) && Encode(c) <= s
  }

  lemma CharacterStarts(s: seq<Byte>)
    ensures StartsCharacter(s) <==> RuneLen(s) > 0
  {
    if c :| IsScalar(c) && Encode(c) <= s {
      EncodedIsRune(c, s[|Encode(c)|..]);
      assert s == Encode(c) + s[|Encode(c)|..];
    }
    if RuneLen(s) > 0 {
      RuneIsEncoded(s);
      assert Encode(CodePoint(s)) <= s;
    }
  }

  predicate Scalars(cs: seq<int>) {
    forall i :: 0 <= i < |cs| ==> IsScalar(cs[i])
  }

  function EncodeAll(cs: seq<int>): seq<Byte>
    requires Scalars(cs)
  {
    if cs == [] then [] else Encode(cs[0]) + EncodeAll(cs[1..])
  }

  lemma {:induction false} EncodedIsWellFormed(cs: seq<int>)
    requires Scalars(cs)
    ensures WellFormed(EncodeAll(cs))
    decreases cs
  {
    if cs != [] {
      hide RuneLen, Encode;
      EncodedIsRune(cs[0], EncodeAll(cs[1..]));
      SlicePast(Encode(cs[0]), EncodeAll(cs[1..]), |Encode(cs[0])|);
      EncodedIsWellFormed(cs[1..]);
    }
  }

  /** A text passes for UTF-8 exactly when it is the bytes of some code points. */
  lemma {:induction false} WellFormedMeansEncoded(s: seq<Byte>)
    ensures WellFormed(s) <==> exists cs :: Scalars(cs) && s == EncodeAll(cs)
    decreases |s|
  {
    hide RuneLen, Encode;
    if cs :| Scalars(cs) && s == EncodeAll(cs) {
      EncodedIsWellFormed(cs);
    }
    if WellFormed(s) {
      if s == [] {
        assert s == EncodeAll([]);
      } else {
        var n := RuneLen(s);
        RuneIsEncoded(s);
        WellFormedMeansEncoded(s[n..]);
        var cs :| Scalars(cs) && s[n..] == EncodeAll(cs);
        assert ([CodePoint(s)] + cs)[1..] == cs;
        assert s == s[..n] + s[n..] == EncodeAll([CodePoint(s)] + cs);
      }
    }
  }

  lemma EncodeAllFirst(cs: seq<int>)
    requires cs != [] && Scalars(cs)
    ensures Scalars(cs[1..]) && EncodeAll(cs) == Encode(cs[0]) + EncodeAll(cs[1..])
  {
    hide Encode;
  }

  /** Text that is UTF-8 stays, and what follows is repaired apart. */
  lemma {:induction false} RepairKeepsText(cs: seq<int>, rest: seq<Byte>)
    requires Scalars(cs)
    ensures Repair(EncodeAll(cs) + rest) == EncodeAll(cs) + Repair(rest)
    decreases cs
  {
    if cs == [] {
      assert EncodeAll(cs) + rest == rest;
    } else {
      hide RuneLen, Encode, RepairFrom, EncodeAll;
      var first, more := Encode(cs[0]), EncodeAll(cs[1..]) + rest;
      EncodeAllFirst(cs);
      Regroup(first, EncodeAll(cs[1..]), rest);
      EncodedIsRune(cs[0], more);
      SlicePast(first, more, |first|);
      RepairNext(first + more, false);
      RepairKeepsText(cs[1..], rest);
      Regroup(first, EncodeAll(cs[1..]), Repair(rest));
      assert first[|first|..] + more == more && first[..|first|] == first;
    }
  }

  /** A run of bytes where no character starts becomes one U+FFFD, up to the next character or the end. */
  lemma {:induction false} RepairReplacesRun(bad: seq<Byte>, rest: seq<Byte>)
    requires bad != [] && (rest == [] || StartsCharacter(rest))
    requires forall i :: 0 <= i < |bad| ==> !StartsCharacter(bad[i..] + rest)
    ensures Repair(bad + rest) == Encode(0xFFFD) + Repair(rest)
  {
    hide StartsCharacter, RuneLen;
    forall i | 0 <= i < |bad| ensures RuneLen(bad[i..] + rest) == 0 {
      CharacterStarts(bad[i..] + rest);
    }
    CharacterStarts(rest);
    assert bad[0..] == bad;
    SlicePast(bad, rest, 1);
    assert forall i :: 0 <= i < |bad[1..]| ==> bad[1..][i..] == bad[i + 1..];
    RunGoesOn(bad[1..], rest);
  }

  lemma {:induction false} RunGoesOn(bad: seq<Byte>, rest: seq<Byte>)
    requires rest == [] || RuneLen(rest) > 0
    requires forall i :: 0 <= i < |bad| ==> RuneLen(bad[i..] + rest) == 0
    ensures RepairFrom(bad + rest, true) == Repair(rest)
    decreases bad
  {
    hide RuneLen;
    if bad == [] {
      assert bad + rest == rest;
    } else {
      assert bad[0..] == bad;
      SlicePast(bad, rest, 1);
      assert forall i :: 0 <= i < |bad[1..]| ==> bad[1..][i..] == bad[i + 1..];
      RunGoesOn(bad[1..], rest);
    }
  }

  /** Every text is characters, or characters and then such a run: the two laws leave nothing open. */
  lemma {:induction false} TextSplits(s: seq<Byte>) returns (cs: seq<int>, bad: seq<Byte>, rest: seq<Byte>)
    ensures Scalars(cs)
    ensures s == EncodeAll(cs) + bad + rest
    ensures bad == [] ==> rest == []
    ensures rest == [] || StartsCharacter(rest)
    ensures forall i :: 0 <= i < |bad| ==> !StartsCharacter(bad[i..] + rest)
    decreases |s|
  {
    hide RuneLen, Encode, StartsCharacter;
    CharacterStarts(s);
    if s == [] {
      cs, bad, rest := [], [], [];
    } else if RuneLen(s) > 0 {
      var n := RuneLen(s);
      RuneIsEncoded(s);
      cs, bad, rest := TextSplits(s[n..]);
      var c := CodePoint(s);
      assert ([c] + cs)[1..] == cs;
      assert s == s[..n] + s[n..];
      assert Encode(c) + (EncodeAll(cs) + bad + rest) == Encode(c) + EncodeAll(cs) + bad + rest;
      cs := [c] + cs;
    } else {
      cs := [];
      bad, rest := RunSplits(s);
      assert s == EncodeAll(cs) + bad + rest;
    }
  }

  lemma {:induction false} RunSplits(s: seq<Byte>) returns (bad: seq<Byte>, rest: seq<Byte>)
    requires s != [] && RuneLen(s) == 0
    ensures bad != [] && s == bad + rest && (rest == [] || StartsCharacter(rest))
    ensures forall i :: 0 <= i < |bad| ==> !StartsCharacter(bad[i..] + rest)
    decreases |s|
  {
    hide RuneLen, StartsCharacter;
    CharacterStarts(s);
    CharacterStarts(s[1..]);
    if s[1..] == [] || RuneLen(s[1..]) > 0 {
      bad, rest := s[..1], s[1..];
      assert bad[0..] + rest == s;
    } else {
      var more;
      more, rest := RunSplits(s[1..]);
      bad := s[..1] + more;
      assert bad + rest == s[..1] + s[1..] == s;
      forall i | 0 <= i < |bad| ensures !StartsCharacter(bad[i..] + rest) {
        if i == 0 {
          assert bad[0..] + rest == s;
        } else {
          assert bad[i..] == more[i - 1..];
        }
      }
    }
  }
}
