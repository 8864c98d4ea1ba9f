/** Base64 as the publisher encodes it, against the definition in section 4 of RFC 4648. */
module Base64 {
  import opened Options
  import opened Words

  const PAD := '='

  // Table 1 of RFC 4648, and the table string of base64_encode.
  function Digit(x: nat): char
    requires x < 64
  {
    if x < 26 then 'A' + x as char
    else if x < 52 then 'a' + (x - 26) as char
    else if x < 62 then '0' + (x - 52) as char
    else if x == 62 then '+'
    else '/'
  }

  function Value(c: char): (v: nat)
    ensures v <= 64
  {
    if 'A' <= c <= 'Z' then (c - 'A') as nat
    else if 'a' <= c <= 'z' then (c - 'a') as nat + 26
    else if '0' <= c <= '9' then (c - '0') as nat + 52
    else if c == '+' then 62
    else if c == '/' then 63
    else 64
  }

  predicate IsDigit(c: char) { Value(c) < 64 }

  lemma DigitValue(x: nat)
    requires x < 64
    ensures Value(Digit(x)) == x
    ensures Digit(x) != PAD
  {
  }

  // ---------------------------------------------------------------- the standard

  function At(s: seq<byte>, k: nat): byte { if k < |s| then s[k] else 0 }

  function PadLength(n: nat): nat { (3 - n % 3) % 3 }

  function EncodedLength(n: nat): nat { (n + 2) / 3 * 4 }

  // The k-th group of six bits, reading octets as 24-bit groups and filling the last one with zero bits.
  function Sextet(s: seq<byte>, k: nat): (x: nat)
    ensures x < 64
  {
    var g := k / 4 * 3;
    if k % 4 == 0 then At(s, g) / 4
    else if k % 4 == 1 then At(s, g) % 4 * 16 + At(s, g + 1) / 16
    else if k % 4 == 2 then At(s, g + 1) % 16 * 4 + At(s, g + 2) / 64
    else At(s, g + 2) % 64
  }

  function Encoded(s: seq<byte>): (t: string)
    ensures |t| == EncodedLength(|s|)
  {
    var n := EncodedLength(|s|);
    seq(n, k requires 0 <= k < n => if k < n - PadLength(|s|) then Digit(Sextet(s, k)) else PAD)
  }

  function Pads(t: string): nat {
    var n := |t|;
    if n < 4 || t[n - 1] != PAD then 0 else if t[n - 2] != PAD then 1 else 2
  }

  // A '=' stands for six zero bits.
  function Bits(t: string, k: nat): (x: nat)
    requires k < |t|
    ensures x < 64
  {
    if IsDigit(t[k]) then Value(t[k]) else 0
  }

  // The r-th octet of the q-th group of four characters.
  function GroupOctet(t: string, q: nat, r: nat): byte
    requires 4 * q + 4 <= |t|
  {
    var g := 4 * q;
    if r == 0 then Bits(t, g) * 4 + Bits(t, g + 1) / 16
    else if r == 1 then Bits(t, g + 1) % 16 * 16 + Bits(t, g + 2) / 4
    else Bits(t, g + 2) % 4 * 64 + Bits(t, g + 3)
  }

  function Octet(t: string, i: nat): byte
    requires 4 * (i / 3) + 4 <= |t|
  {
    GroupOctet(t, i / 3, i % 3)
  }

  // Whole groups of four, digits only except for at most two '=' at the end.
  predicate WellFormed(t: string) {
    && |t| % 4 == 0
    && forall k :: 0 <= k < |t| - Pads(t) ==> IsDigit(t[k])
  }

  function Octets(t: string): (s: seq<byte>)
    requires |t| % 4 == 0
  {
    var n := |t| / 4 * 3 - Pads(t);
    seq(n, i requires 0 <= i < n => Octet(t, i))
  }

  function Decoded(t: string): Option<seq<byte>> {
    if WellFormed(t) then Some(Octets(t)) else None
  }

  lemma LengthBounds(n: nat)
    ensures EncodedLength(n) / 4 * 3 - PadLength(n) == n
    ensures EncodedLength(n) % 4 == 0
    ensures n > 0 ==> 4 <= EncodedLength(n)
    ensures EncodedLength(n) - PadLength(n) >= n
  {
    var q, r := n / 3, n % 3;
    assert n == 3 * q + r;
    if r == 0 {
      assert EncodedLength(n) == 4 * q;
    } else {
      assert EncodedLength(n) == 4 * (q + 1);
    }
  }

  lemma EncodedBits(s: seq<byte>, k: nat)
    requires k < EncodedLength(|s|)
    ensures Bits(Encoded(s), k) == Sextet(s, k)
    ensures k < EncodedLength(|s|) - PadLength(|s|) ==> IsDigit(Encoded(s)[k])
  {
    var n := EncodedLength(|s|);
    if k < n - PadLength(|s|) {
      DigitValue(Sextet(s, k));
    } else {
      assert Encoded(s)[k] == PAD;
      PaddedSextet(s, k);
    }
  }

  // Under a '=' there are only filling bits.
  lemma PaddedSextet(s: seq<byte>, k: nat)
    requires EncodedLength(|s|) - PadLength(|s|) <= k < EncodedLength(|s|)
    ensures Sextet(s, k) == 0
  {
    var q := |s| / 3;
    if |s| % 3 == 1 {
      assert EncodedLength(|s|) == 4 * q + 4;
    } else if |s| % 3 == 2 {
      assert EncodedLength(|s|) == 4 * q + 4;
    }
  }

  lemma GroupInside(i: nat, n: nat)
    requires i < n
    ensures 4 * (i / 3) + 4 <= EncodedLength(n)
  {
    assert i / 3 <= (n - 1) / 3;
    assert (n + 2) / 3 == (n - 1) / 3 + 1;
  }

  lemma OctetsOfSextets(a: byte, b: byte, c: byte)
    ensures a / 4 * 4 + (a % 4 * 16 + b / 16) / 16 == a
    ensures (a % 4 * 16 + b / 16) % 16 * 16 + (b % 16 * 4 + c / 64) / 4 == b
    ensures (b % 16 * 4 + c / 64) % 4 * 64 + c % 64 == c
  {
  }

  lemma GroupOctets(t: string, q: nat, a: byte, b: byte, c: byte)
    requires 4 * q + 4 <= |t|
    requires Bits(t, 4 * q) == a / 4
    requires Bits(t, 4 * q + 1) == a % 4 * 16 + b / 16
    requires Bits(t, 4 * q + 2) == b % 16 * 4 + c / 64
    requires Bits(t, 4 * q + 3) == c % 64
    ensures GroupOctet(t, q, 0) == a && GroupOctet(t, q, 1) == b && GroupOctet(t, q, 2) == c
  {
    OctetsOfSextets(a, b, c);
  }

  lemma GroupBits(s: seq<byte>, q: nat)
    requires 4 * q + 4 <= EncodedLength(|s|)
    ensures Bits(Encoded(s), 4 * q) == At(s, 3 * q) / 4
    ensures Bits(Encoded(s), 4 * q + 1) == At(s, 3 * q) % 4 * 16 + At(s, 3 * q + 1) / 16
    ensures Bits(Encoded(s), 4 * q + 2) == At(s, 3 * q + 1) % 16 * 4 + At(s, 3 * q + 2) / 64
    ensures Bits(Encoded(s), 4 * q + 3) == At(s, 3 * q + 2) % 64
  {
    EncodedBits(s, 4 * q);
    EncodedBits(s, 4 * q + 1);
    EncodedBits(s, 4 * q + 2);
    EncodedBits(s, 4 * q + 3);
    GroupSextets(s, q);
  }

  lemma GroupBack(s: seq<byte>, q: nat)
    requires 4 * q + 4 <= EncodedLength(|s|)
    ensures GroupOctet(Encoded(s), q, 0) == At(s, 3 * q)
    ensures GroupOctet(Encoded(s), q, 1) == At(s, 3 * q + 1)
    ensures GroupOctet(Encoded(s), q, 2) == At(s, 3 * q + 2)
  {
    GroupBits(s, q);
    GroupOctets(Encoded(s), q, At(s, 3 * q), At(s, 3 * q + 1), At(s, 3 * q + 2));
  }

  lemma OctetBack(s: seq<byte>, i: nat)
    requires i < |s|
    ensures 4 * (i / 3) + 4 <= EncodedLength(|s|)
    ensures Octet(Encoded(s), i) == s[i]
  {
    GroupInside(i, |s|);
    GroupBack(s, i / 3);
    assert i == 3 * (i / 3) + i % 3;
  }

  lemma GroupSextets(s: seq<byte>, q: nat)
    ensures Sextet(s, 4 * q) == At(s, 3 * q) / 4
    ensures Sextet(s, 4 * q + 1) == At(s, 3 * q) % 4 * 16 + At(s, 3 * q + 1) / 16
    ensures Sextet(s, 4 * q + 2) == At(s, 3 * q + 1) % 16 * 4 + At(s, 3 * q + 2) / 64
    ensures Sextet(s, 4 * q + 3) == At(s, 3 * q + 2) % 64
  {
  }

  lemma EncodedPads(s: seq<byte>)
    ensures Pads(Encoded(s)) == PadLength(|s|)
  {
    var n, p := EncodedLength(|s|), PadLength(|s|);
    LengthBounds(|s|);
    if |s| > 0 {
      assert Value(PAD) == 64;
      EncodedBits(s, n - 1);
      EncodedBits(s, n - 2);
    }
  }

  lemma EncodedWellFormed(s: seq<byte>)
    ensures WellFormed(Encoded(s))
    ensures |Encoded(s)| / 4 * 3 - Pads(Encoded(s)) == |s|
  {
    EncodedPads(s);
    LengthBounds(|s|);
    forall k | 0 <= k < |Encoded(s)| - Pads(Encoded(s))
      ensures IsDigit(Encoded(s)[k])
    {
      EncodedBits(s, k);
    }
  }

  lemma OctetsBack(s: seq<byte>)
    ensures |Encoded(s)| % 4 == 0 && Octets(Encoded(s)) == s
  {
    EncodedWellFormed(s);
    forall i | 0 <= i < |s|
      ensures Octets(Encoded(s))[i] == s[i]
    {
      OctetBack(s, i);
    }
  }

  // Decoding gives back every byte string.
  lemma DecodeEncoded(s: seq<byte>)
    ensures Decoded(Encoded(s)) == Some(s)
  {
    EncodedWellFormed(s);
    OctetsBack(s);
  }

  // Length, alphabet and padding: 4 * ceil(n / 3) characters, all digits but the last 0, 1 or 2, which are '='.
  lemma EncodedShape(s: seq<byte>)
    ensures 3 * |Encoded(s)| == 4 * (|s| + PadLength(|s|))
    ensures forall k :: 0 <= k < |Encoded(s)| ==>
              if k < |Encoded(s)| - PadLength(|s|) then IsDigit(Encoded(s)[k]) else Encoded(s)[k] == PAD
  {
    LengthBounds(|s|);
    forall k | 0 <= k < |Encoded(s)|
      ensures if k < |Encoded(s)| - PadLength(|s|) then IsDigit(Encoded(s)[k]) else Encoded(s)[k] == PAD
    {
      EncodedBits(s, k);
    }
  }

  // Three octets and their four digits are one number, most significant first, in base 256 and in base 64.
  lemma GroupIsNumber(s: seq<byte>)
    requires |s| == 3
    ensures |Encoded(s)| == 4
    ensures s[0] as int * 0x1_0000 + s[1] as int * 0x100 + s[2] as int ==
            Value(Encoded(s)[0]) * 0x4_0000 + Value(Encoded(s)[1]) * 0x1000 + Value(Encoded(s)[2]) * 0x40
            + Value(Encoded(s)[3])
  {
    GroupSextets(s, 0);
    DigitValue(Sextet(s, 0));
    DigitValue(Sextet(s, 1));
    DigitValue(Sextet(s, 2));
    DigitValue(Sextet(s, 3));
  }

  // The alphabet by its character codes (table 1 of RFC 4648).
  lemma AlphabetCodes(x: nat)
    requires x < 64
    ensures Digit(x) as int ==
            if x < 26 then 65 + x else if x < 52 then 71 + x else if x < 62 then x - 4 else if x == 62 then 43 else 47
  {
  }

  // ---------------------------------------------------------------- base64_encode

  function Word24(a: int, b: int, c: int): int { a * 0x1_0000 + b * 0x100 + c }

  // The sextets of a 24-bit word.
  lemma SextetsOfTriple(a: byte, b: byte, c: byte)
    ensures var triple := Word24(a, b, c);
            && triple / 0x4_0000 % 64 == a / 4
            && triple / 0x1000 % 64 == a % 4 * 16 + b / 16
            && triple / 0x40 % 64 == b % 16 * 4 + c / 64
            && triple % 64 == c % 64
  {
    hide Word24;
    Without18(a, b, c);
    Without12(a, b, c);
    Without6(a, b, c);
    Last6(a, b, c);
  }

  // The word without its last 18, 12 or 6 bits.
  lemma Without18(a: byte, b: byte, c: byte)
    ensures Word24(a, b, c) / 0x4_0000 == a / 4
  {
  }

  lemma Without12(a: byte, b: byte, c: byte)
    ensures Word24(a, b, c) / 0x1000 == a * 16 + b / 16
  {
  }

  lemma Without6(a: byte, b: byte, c: byte)
    ensures Word24(a, b, c) / 0x40 == a * 0x400 + b * 4 + c / 64
  {
  }

  lemma Last6(a: byte, b: byte, c: byte)
    ensures Word24(a, b, c) % 64 == c % 64
  {
  }

  // `i < in_len ? in[i++] : 0`.
  method NextOctet(input: seq<byte>, i: nat) returns (x: byte, i': nat)
    requires i <= |input|
    ensures x == At(input, i)
    ensures i' == if i < |input| then i + 1 else i
  {
    if i < |input| {
      x, i' := input[i], i + 1;
    } else {
      x, i' := 0, i;
    }
  }

  // One turn of the loop: three octets in, four characters out.
  method EmitGroup(input: seq<byte>, i: nat, out: array<char>, j: nat, ghost q: nat) returns (i': nat)
    requires i == 3 * q < |input| && j == 4 * q && j + 4 <= out.Length
    modifies out
    ensures i' == if i + 3 <= |input| then i + 3 else |input|
    ensures out[j] == Digit(Sextet(input, j)) && out[j + 1] == Digit(Sextet(input, j + 1))
    ensures out[j + 2] == Digit(Sextet(input, j + 2)) && out[j + 3] == Digit(Sextet(input, j + 3))
    ensures forall m :: 0 <= m < j ==> out[m] == old(out[m])
  {
    var a, b, c;
    a, i' := NextOctet(input, i);
    b, i' := NextOctet(input, i');
    c, i' := NextOctet(input, i');
    EmitTriple(Word24(a, b, c), out, j);
    SextetsOfTriple(a, b, c);
    GroupSextets(input, q);
  }

  method EmitTriple(triple: nat, out: array<char>, j: nat)
    requires j + 4 <= out.Length
    modifies out
    ensures out[j] == Digit(triple / 0x4_0000 % 64)
    ensures out[j + 1] == Digit(triple / 0x1000 % 64)
    ensures out[j + 2] == Digit(triple / 0x40 % 64)
    ensures out[j + 3] == Digit(triple % 64)
    ensures forall m :: 0 <= m < j ==> out[m] == old(out[m])
  {
    out[j] := Digit(triple / 0x4_0000 % 64);
    out[j + 1] := Digit(triple / 0x1000 % 64);
    out[j + 2] := Digit(triple / 0x40 % 64);
    out[j + 3] := Digit(triple % 64);
  }

  // The q-th group is not the first one beyond the input.
  lemma GroupsOf(n: nat, q: nat)
    requires q == 0 || 3 * (q - 1) < n
    ensures 4 * q <= EncodedLength(n)
    ensures 3 * q >= n ==> 4 * q == EncodedLength(n)
  {
  }

  method EmitGroups(input: seq<byte>, out: array<char>) returns (j: nat)
    requires out.Length > EncodedLength(|input|)
    modifies out
    ensures j == EncodedLength(|input|)
    ensures forall m :: 0 <= m < j ==> out[m] == Digit(Sextet(input, m))
  {
    var i := 0;
    j := 0;
    ghost var q := 0;
    while i < |input|
      invariant j == 4 * q < out.Length && (q == 0 || 3 * (q - 1) < |input|)
      invariant i == if 3 * q <= |input| then 3 * q else |input|
      invariant forall m :: 0 <= m < j ==> out[m] == Digit(Sextet(input, m))
      decreases |input| - i
    {
      GroupsOf(|input|, q + 1);
      i := EmitGroup(input, i, out, j, q);
      j := j + 4;
      q := q + 1;
    }
    GroupsOf(|input|, q);
  }

  // base64_encode: the encoded text and a terminating NUL; the result is the text's length.
  method Base64Encode(input: seq<byte>, out: array<char>) returns (n: nat)
    requires out.Length > EncodedLength(|input|)
    modifies out
    ensures n < out.Length && out[..n] == Encoded(input) && out[n] == '\0'
  {
    var j := EmitGroups(input, out);
    var pad := (3 - |input| % 3) % 3;
    LengthBounds(|input|);
    for k := 0 to pad
      invariant forall m :: 0 <= m < j - pad ==> out[m] == Digit(Sextet(input, m))
      invariant forall m :: j - k <= m < j ==> out[m] == PAD
    {
      out[j - 1 - k] := PAD;
    }
    out[j] := '\0';
    n := j;
  }
}
