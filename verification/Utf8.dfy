/** nanopb's pb_validate_utf8 against the definition of UTF-8 in sections 3 and 4 of RFC 3629. */
module Utf8 {
  import opened Seqs

  // ---------------------------------------------------------------- the standard

  predicate IsScalar(c: bv32) { c <= 0x10_FFFF && !(0xD800 <= c <= 0xDFFF) }

  // What the validator lets through: a C string holds no U+0000, and U+FFFE and U+FFFF are refused.
  predicate IsPermitted(c: bv32) { IsScalar(c) && c != 0 && c != 0xFFFE && c != 0xFFFF }

  function Tail(c: bv32, shift: bv6): bv8
    requires shift <= 12
  {
    0x80 | ((c >> shift) & 0x3F) as bv8
  }

  // The bit patterns of section 3.
  function Encode(c: bv32): (b: seq<bv8>)
    requires IsScalar(c)
    ensures 1 <= |b| <= 4
  {
    if c < 0x80 then [(c & 0x7F) as bv8]
    else if c < 0x800 then [0xC0 | ((c >> 6) & 0x1F) as bv8, Tail(c, 0)]
    else if c < 0x1_0000 then [0xE0 | ((c >> 12) & 0x0F) as bv8, Tail(c, 6), Tail(c, 0)]
    else [0xF0 | ((c >> 18) & 0x07) as bv8, Tail(c, 12), Tail(c, 6), Tail(c, 0)]
  }

  ghost predicate AllPermitted(cs: seq<bv32>) { forall k :: 0 <= k < |cs| ==> IsPermitted(cs[k]) }

  ghost function EncodeAll(cs: seq<bv32>): seq<bv8>
    requires AllPermitted(cs)
  {
    if |cs| == 0 then [] else Encode(cs[0]) + EncodeAll(cs[1..])
  }

  ghost predicate IsEncoding(cs: seq<bv32>, t: seq<bv8>) { AllPermitted(cs) && EncodeAll(cs) == t }

  ghost predicate WellFormed(t: seq<bv8>) { exists cs :: IsEncoding(cs, t) }

  // ---------------------------------------------------------------- one character of the validator

  predicate IsTail(b: bv8) { b & 0xC0 == 0x80 }

  predicate Accepts2(b0: bv8, b1: bv8) { !(!IsTail(b1) || b0 & 0xFE == 0xC0) }

  predicate Accepts3(b0: bv8, b1: bv8, b2: bv8) {
    !(|| !IsTail(b1) || !IsTail(b2)
      || (b0 == 0xE0 && b1 & 0xE0 == 0x80)
      || (b0 == 0xED && b1 & 0xE0 == 0xA0)
      || (b0 == 0xEF && b1 == 0xBF && b2 & 0xFE == 0xBE))
  }

  predicate Accepts4(b0: bv8, b1: bv8, b2: bv8, b3: bv8) {
    !(|| !IsTail(b1) || !IsTail(b2) || !IsTail(b3)
      || (b0 == 0xF0 && b1 & 0xF0 == 0x80)
      || (b0 == 0xF4 && b1 > 0x8F) || b0 > 0xF4)
  }

  // How many bytes the validator takes for the next character, 0 when it refuses.
  function Taken(b0: bv8, b1: bv8, b2: bv8, b3: bv8): (n: nat)
    ensures n <= 4
  {
    if b0 == 0 then 0
    else if b0 < 0x80 then 1
    else if b0 & 0xE0 == 0xC0 then if Accepts2(b0, b1) then 2 else 0
    else if b0 & 0xF0 == 0xE0 then if Accepts3(b0, b1, b2) then 3 else 0
    else if b0 & 0xF8 == 0xF0 then if Accepts4(b0, b1, b2, b3) then 4 else 0
    else 0
  }

  // What it takes is the encoding of a permitted character ...
  lemma Sound1(b0: bv8)
    requires b0 != 0 && b0 < 0x80
    ensures IsPermitted(b0 as bv32) && Encode(b0 as bv32) == [b0]
  {
  }

  lemma Sound2(b0: bv8, b1: bv8) returns (c: bv32)
    requires b0 & 0xE0 == 0xC0 && Accepts2(b0, b1)
    ensures IsPermitted(c) && Encode(c) == [b0, b1]
  {
    c := ((b0 & 0x1F) as bv32 << 6) | (b1 & 0x3F) as bv32;
  }

  function Join3(b0: bv8, b1: bv8, b2: bv8): bv32 {
    ((b0 & 0x0F) as bv32 << 12) | ((b1 & 0x3F) as bv32 << 6) | (b2 & 0x3F) as bv32
  }

  lemma Bytes3(b0: bv8, b1: bv8, b2: bv8)
    requires b0 & 0xF0 == 0xE0 && IsTail(b1) && IsTail(b2)
    ensures var c := Join3(b0, b1, b2);
            0xE0 | ((c >> 12) & 0x0F) as bv8 == b0 && Tail(c, 6) == b1 && Tail(c, 0) == b2
  {
  }

  lemma Range3(b0: bv8, b1: bv8, b2: bv8)
    requires b0 & 0xF0 == 0xE0 && Accepts3(b0, b1, b2)
    ensures 0x800 <= Join3(b0, b1, b2) < 0x1_0000 && IsPermitted(Join3(b0, b1, b2))
  {
  }

  lemma Sound3(b0: bv8, b1: bv8, b2: bv8)
    requires b0 & 0xF0 == 0xE0 && Accepts3(b0, b1, b2)
    ensures IsPermitted(Join3(b0, b1, b2)) && Encode(Join3(b0, b1, b2)) == [b0, b1, b2]
  {
    Bytes3(b0, b1, b2);
    Range3(b0, b1, b2);
  }

  function Join4(b0: bv8, b1: bv8, b2: bv8, b3: bv8): bv32 {
    ((b0 & 0x07) as bv32 << 18) | ((b1 & 0x3F) as bv32 << 12) | ((b2 & 0x3F) as bv32 << 6) | (b3 & 0x3F) as bv32
  }

  lemma Bytes4(b0: bv8, b1: bv8, b2: bv8, b3: bv8)
    requires b0 & 0xF8 == 0xF0 && IsTail(b1) && IsTail(b2) && IsTail(b3)
    ensures var c := Join4(b0, b1, b2, b3);
            && 0xF0 | ((c >> 18) & 0x07) as bv8 == b0
            && Tail(c, 12) == b1 && Tail(c, 6) == b2 && Tail(c, 0) == b3
  {
  }

  lemma Range4(b0: bv8, b1: bv8, b2: bv8, b3: bv8)
    requires b0 & 0xF8 == 0xF0 && Accepts4(b0, b1, b2, b3)
    ensures 0x1_0000 <= Join4(b0, b1, b2, b3) <= 0x10_FFFF
  {
  }

  lemma Sound4(b0: bv8, b1: bv8, b2: bv8, b3: bv8)
    requires b0 & 0xF8 == 0xF0 && Accepts4(b0, b1, b2, b3)
    ensures IsPermitted(Join4(b0, b1, b2, b3)) && Encode(Join4(b0, b1, b2, b3)) == [b0, b1, b2, b3]
  {
    Bytes4(b0, b1, b2, b3);
    Range4(b0, b1, b2, b3);
  }

  // ... and every encoding of one is taken whole, whatever follows.
  lemma Complete(c: bv32, x: bv8, y: bv8, z: bv8)
    requires IsPermitted(c)
    ensures var e := Encode(c);
            && (|e| == 1 ==> Taken(e[0], x, y, z) == 1)
            && (|e| == 2 ==> Taken(e[0], e[1], x, y) == 2)
            && (|e| == 3 ==> Taken(e[0], e[1], e[2], x) == 3)
            && (|e| == 4 ==> Taken(e[0], e[1], e[2], e[3]) == 4)
  {
  }

  // ---------------------------------------------------------------- whole strings

  function At(t: seq<bv8>, k: nat): bv8 { if k < |t| then t[k] else 0 }

  function TakenAt(t: seq<bv8>): (n: nat) { Taken(At(t, 0), At(t, 1), At(t, 2), At(t, 3)) }

  lemma TakenInside(t: seq<bv8>)
    ensures TakenAt(t) <= |t|
  {
    assert !IsTail(0);
  }

  lemma TakenIsCharacter(t: seq<bv8>) returns (c: bv32)
    requires TakenAt(t) > 0
    ensures TakenAt(t) <= |t| && IsPermitted(c) && Encode(c) == t[..TakenAt(t)]
  {
    var n := TakenAt(t);
    TakenInside(t);
    var b0, b1, b2, b3 := At(t, 0), At(t, 1), At(t, 2), At(t, 3);
    if n == 1 {
      Sound1(b0);
      c := b0 as bv32;
    } else if n == 2 {
      c := Sound2(b0, b1);
    } else if n == 3 {
      Sound3(b0, b1, b2);
      c := Join3(b0, b1, b2);
    } else {
      Sound4(b0, b1, b2, b3);
      c := Join4(b0, b1, b2, b3);
    }
  }

  lemma CharacterIsTaken(c: bv32, rest: seq<bv8>)
    requires IsPermitted(c)
    ensures TakenAt(Encode(c) + rest) == |Encode(c)|
  {
    var e := Encode(c);
    var t := e + rest;
    assert forall k :: 0 <= k < |e| ==> At(t, k) == e[k];
    match |e|
    case 1 => Complete(c, At(t, 1), At(t, 2), At(t, 3));
    case 2 => Complete(c, At(t, 2), At(t, 3), 0);
    case 3 => Complete(c, At(t, 3), 0, 0);
    case _ => Complete(c, 0, 0, 0);
  }

  lemma EncodingTail(cs: seq<bv32>, t: seq<bv8>)
    requires IsEncoding(cs, t) && |t| > 0
    ensures var n := TakenAt(t);
            0 < n <= |t| && WellFormed(t[n..])
  {
    CharacterIsTaken(cs[0], EncodeAll(cs[1..]));
    ConcatParts(Encode(cs[0]), EncodeAll(cs[1..]));
    assert IsEncoding(cs[1..], t[TakenAt(t)..]);
  }

  lemma EncodingCons(c: bv32, cs: seq<bv32>, t: seq<bv8>, n: nat)
    requires n <= |t| && IsPermitted(c) && Encode(c) == t[..n] && IsEncoding(cs, t[n..])
    ensures WellFormed(t)
  {
    var all := [c] + cs;
    assert all[0] == c && all[1..] == cs;
    SplitAt(t, n);
    assert IsEncoding(all, t);
  }

  // A non-empty string is an encoding exactly when the validator takes a character off it and the rest is one.
  lemma OneCharacter(t: seq<bv8>)
    requires |t| > 0
    ensures TakenAt(t) <= |t|
    ensures WellFormed(t) <==> TakenAt(t) > 0 && WellFormed(t[TakenAt(t)..])
  {
    TakenInside(t);
    if WellFormed(t) {
      var cs :| IsEncoding(cs, t);
      EncodingTail(cs, t);
    }
    if TakenAt(t) > 0 && WellFormed(t[TakenAt(t)..]) {
      var c := TakenIsCharacter(t);
      var cs :| IsEncoding(cs, t[TakenAt(t)..]);
      EncodingCons(c, cs, t, TakenAt(t));
    }
  }

  lemma EmptyWellFormed()
    ensures WellFormed([])
  {
    assert IsEncoding([], []);
  }

  // Characters up to and including the terminating zero.
  predicate IsCString(s: seq<bv8>) {
    |s| > 0 && s[|s| - 1] == 0 && forall k :: 0 <= k < |s| - 1 ==> s[k] != 0
  }

  // One turn of the loop: how far to go on, 0 for "return false". Every read s[i + k] below is inside the string or at
  // its terminator.
  method TakeCharacter(s: seq<bv8>, i: nat) returns (n: nat)
    requires IsCString(s) && i < |s| - 1
    ensures n == TakenAt(s[i..|s| - 1])
  {
    ghost var rest := s[i..|s| - 1];
    assert At(rest, 0) == s[i] && At(rest, 1) == s[i + 1];
    n := 0;
    if s[i] < 0x80 {
      n := 1;
    } else if s[i] & 0xE0 == 0xC0 {
      if !(s[i + 1] & 0xC0 != 0x80 || s[i] & 0xFE == 0xC0) {
        n := 2;
      }
    } else if s[i] & 0xF0 == 0xE0 {
      if !(|| s[i + 1] & 0xC0 != 0x80 || s[i + 2] & 0xC0 != 0x80
           || (s[i] == 0xE0 && s[i + 1] & 0xE0 == 0x80)
           || (s[i] == 0xED && s[i + 1] & 0xE0 == 0xA0)
           || (s[i] == 0xEF && s[i + 1] == 0xBF && s[i + 2] & 0xFE == 0xBE)) {
        n := 3;
      }
    } else if s[i] & 0xF8 == 0xF0 {
      if !(|| s[i + 1] & 0xC0 != 0x80 || s[i + 2] & 0xC0 != 0x80 || s[i + 3] & 0xC0 != 0x80
           || (s[i] == 0xF0 && s[i + 1] & 0xF0 == 0x80)
           || (s[i] == 0xF4 && s[i + 1] > 0x8F) || s[i] > 0xF4) {
        n := 4;
      }
    }
  }

  // pb_validate_utf8.
  method ValidateUtf8(s: seq<bv8>) returns (valid: bool)
    requires IsCString(s)
    ensures valid <==> WellFormed(s[..|s| - 1])
  {
    hide TakenAt, WellFormed;
    var i := 0;
    ghost var text := s[..|s| - 1];
    assert text[0..] == text;
    while s[i] != 0
      invariant i <= |text|
      invariant WellFormed(text) <==> WellFormed(text[i..])
      decreases |s| - i
    {
      ghost var rest := text[i..];
      assert rest == s[i..|s| - 1];
      OneCharacter(rest);
      var n := TakeCharacter(s, i);
      if n == 0 {
        return false;
      }
      assert rest[n..] == text[i + n..];
      i := i + n;
    }
    assert text[i..] == [];
    EmptyWellFormed();
    valid := true;
  }
}
