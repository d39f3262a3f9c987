/** Base58 text for byte strings, and the byte form of big numbers it goes through. */
module Base58 {
  import opened Wrappers
  import opened Digits

  // ----- changing the base of a big-endian sequence with leading zeros -----

  function LeadingZeros(b: seq<nat>): (z: nat)
    ensures z <= |b| && (forall i :: 0 <= i < z ==> b[i] == 0) && (z < |b| ==> b[z] != 0)
  {
    if b == [] || b[0] != 0 then 0 else 1 + LeadingZeros(b[1..])
  }

  /** The same number of leading zeros, then the same value in another base. */
  function Convert(b: seq<nat>, from: nat, to: nat): (c: seq<nat>)
    requires to >= 2
    ensures DigitsOk(c, to)
  {
    Zeros(LeadingZeros(b)) + Reverse(DigitsOf(Value(Reverse(b), from), to))
  }

  lemma {:induction false} LeadingZerosUnique(b: seq<nat>, z: nat)
    requires z <= |b| && (forall i :: 0 <= i < z ==> b[i] == 0) && (z < |b| ==> b[z] != 0)
    ensures LeadingZeros(b) == z
  {
  }

  lemma {:induction false} ZerosFirst(z: nat, v: seq<nat>, base: nat)
    requires Canonical(v)
    ensures LeadingZeros(Zeros(z) + Reverse(v)) == z
    ensures Value(Reverse(Zeros(z) + Reverse(v)), base) == Value(v, base)
  {
    LeadingZerosUnique(Zeros(z) + Reverse(v), z);
    assert Reverse(Zeros(z) + Reverse(v)) == v + Zeros(z);
    ValueZeros(v, z, base);
  }

  /** A digit sequence is determined by its leading zeros and its value. */
  lemma {:induction false} FromParts(b: seq<nat>, base: nat)
    requires base >= 2 && DigitsOk(b, base)
    ensures Zeros(LeadingZeros(b)) + Reverse(DigitsOf(Value(Reverse(b), base), base)) == b
  {
    var z := LeadingZeros(b);
    var v := Reverse(b[z..]);
    assert b == Zeros(z) + Reverse(v);
    ZerosFirst(z, v, base);
    DigitsUnique(v, base);
  }

  /** Changing the base and back gives the sequence again. */
  lemma {:induction false} ConvertBack(b: seq<nat>, from: nat, to: nat)
    requires from >= 2 && to >= 2 && DigitsOk(b, from)
    ensures Convert(Convert(b, from, to), to, from) == b
  {
    var n := Value(Reverse(b), from);
    ZerosFirst(LeadingZeros(b), DigitsOf(n, to), to);
    FromParts(b, from);
  }

  // ----- big numbers as bytes -----

  /** Digits with a sign in the top bit of the last byte, which costs a byte if that bit is taken. */
  function Signed(d: seq<nat>, negative: bool): (v: seq<nat>)
  {
    if d == [] then []
    else
      var top := |d| - 1;
      if d[top] >= 128 then d + [if negative then 128 else 0]
      else if negative then d[top := d[top] + 128] else d
  }

  /** The MPI form of a number, lowest byte first. */
  function GetVch(n: int): (v: seq<nat>)
    ensures DigitsOk(v, 256)
  {
    Signed(DigitsOf(if n < 0 then -n else n, 256), n < 0)
  }

  function SetVch(v: seq<nat>): (n: int)
  {
    if v == [] then 0
    else
      var top := |v| - 1;
      if v[top] >= 128 then 0 - Value(v[top := v[top] - 128], 256) else Value(v, 256)
  }

  /** Reading the bytes of a number gives the number, with its sign. */
  lemma {:induction false} VchRoundTrip(n: int)
    ensures SetVch(GetVch(n)) == n
  {
    var d := DigitsOf(if n < 0 then -n else n, 256);
    if d != [] && d[|d| - 1] >= 128 {
      assert d + [0] == d + Zeros(1);
      assert (d + [128])[|d| := 0] == d + [0];
      ValueZeros(d, 1, 256);
    } else if d != [] && n < 0 {
      var top := |d| - 1;
      assert d[top := d[top] + 128][top := d[top]] == d;
    }
  }

  // ----- the alphabet -----

  /** The alphabet: 1-9, A-H, J-N, P-Z, a-k, m-z, in this order. */
  function Char(d: nat): (c: char)
    requires d < 58
  {
    if d < 9 then ('1' as int + d) as char
    else if d < 17 then ('A' as int + d - 9) as char
    else if d < 22 then ('J' as int + d - 17) as char
    else if d < 33 then ('P' as int + d - 22) as char
    else if d < 44 then ('a' as int + d - 33) as char
    else ('m' as int + d - 44) as char
  }

  /** strchr on the alphabet. */
  function DigitOf(c: char): (d: Option<nat>)
    ensures d.Some? ==> d.value < 58 && Char(d.value) == c
  {
    if '1' <= c <= '9' then Some(c as int - '1' as int)
    else if 'A' <= c <= 'H' then Some(c as int - 'A' as int + 9)
    else if 'J' <= c <= 'N' then Some(c as int - 'J' as int + 17)
    else if 'P' <= c <= 'Z' then Some(c as int - 'P' as int + 22)
    else if 'a' <= c <= 'k' then Some(c as int - 'a' as int + 33)
    else if 'm' <= c <= 'z' then Some(c as int - 'm' as int + 44)
    else None
  }

  /** Letters stand for distinct digits, and are neither blank nor the end of a C string. */
  lemma CharDigit(d: nat)
    requires d < 58
    ensures DigitOf(Char(d)) == Some(d) && !IsSpace(Char(d)) && Char(d) != '\0'
  {
  }

  predicate IsSpace(c: char)
  {
    c == ' ' || '\t' <= c <= '\r'
  }

  function Chars(v: seq<nat>): (s: string)
    requires DigitsOk(v, 58)
    ensures |s| == |v| && forall i :: 0 <= i < |v| ==> s[i] == Char(v[i])
  {
    seq(|v|, i requires 0 <= i < |v| => Char(v[i]))
  }

  predicate InAlphabet(s: string)
  {
    forall i :: 0 <= i < |s| ==> DigitOf(s[i]).Some?
  }

  function Indices(s: string): (v: seq<nat>)
    requires InAlphabet(s)
    ensures |v| == |s| && DigitsOk(v, 58) && forall i :: 0 <= i < |s| ==> DigitOf(s[i]) == Some(v[i])
  {
    seq(|s|, i requires 0 <= i < |s| => DigitOf(s[i]).value)
  }

  // ----- text -----

  /** The part of a text before its first NUL. */
  function CString(s: string): (r: string)
    ensures r <= s && '\0' !in r && (|r| < |s| ==> s[|r|] == '\0')
  {
    if s == [] || s[0] == '\0' then [] else [s[0]] + CString(s[1..])
  }

  function TrimStart(s: string): (r: string)
    ensures |r| <= |s| && r == s[|s| - |r|..] && (r != [] ==> !IsSpace(r[0]))
    ensures forall i :: 0 <= i < |s| - |r| ==> IsSpace(s[i])
  {
    if s != [] && IsSpace(s[0]) then TrimStart(s[1..]) else s
  }

  function TrimEnd(s: string): (r: string)
    ensures r <= s && (r != [] ==> !IsSpace(r[|r| - 1]))
    ensures forall i :: |r| <= i < |s| ==> IsSpace(s[i])
  {
    if s != [] && IsSpace(s[|s| - 1]) then TrimEnd(s[..|s| - 1]) else s
  }

  /** A C string without blanks around it. */
  function Trim(s: string): (r: string)
  {
    TrimEnd(TrimStart(CString(s)))
  }

  /** What encoding a byte string gives. */
  function Encoded(b: seq<nat>): (s: string)
    requires DigitsOk(b, 256)
  {
    Chars(Convert(b, 256, 58))
  }

  /** What decoding a text gives. */
  function Decoded(s: string): (r: Option<seq<nat>>)
  {
    DecodedLetters(Trim(s))
  }

  function DecodedLetters(t: string): (r: Option<seq<nat>>)
  {
    if InAlphabet(t) then Some(Convert(Indices(t), 58, 256)) else None
  }

  lemma {:induction false} TrimChars(v: seq<nat>)
    requires DigitsOk(v, 58)
    ensures Trim(Chars(v)) == Chars(v) && InAlphabet(Chars(v)) && Indices(Chars(v)) == v
  {
    var s := Chars(v);
    forall i | 0 <= i < |s|
      ensures DigitOf(s[i]) == Some(v[i]) && !IsSpace(s[i]) && s[i] != '\0'
    {
      CharDigit(v[i]);
    }
    assert CString(s) == s;
  }

  /** Decoding an encoded byte string gives it back, leading zeros included. */
  lemma {:induction false} DecodeEncode(b: seq<nat>)
    requires DigitsOk(b, 256)
    ensures Decoded(Encoded(b)) == Some(b)
  {
    TrimChars(Convert(b, 256, 58));
    ConvertBack(b, 256, 58);
  }

  /** Encoding a decoded text gives the text without the blanks around it. */
  lemma {:induction false} EncodeDecode(s: string)
    requires Decoded(s).Some?
    ensures DigitsOk(Decoded(s).value, 256) && Encoded(Decoded(s).value) == Trim(s)
  {
    ConvertBack(Indices(Trim(s)), 58, 256);
  }

  /** Encoding: repeated division, leading zeros, and a final reversal. */
  method EncodeBase58(b: seq<nat>) returns (str: string)
    requires DigitsOk(b, 256)
    ensures str == Encoded(b)
  {
    var vchTmp := Reverse(b) + [0];
    var bn := SetVch(vchTmp);
    ValueSigned(b);
    str := DivideOut(bn);
    var ones := Ones(b);
    EncodedReversed(b, DigitsOf(bn, 58));
    str := Reverse(str + ones);
  }

  /** The letter for zero, once for each zero byte in front. */
  method Ones(b: seq<nat>) returns (str: string)
    ensures str == Chars(Zeros(LeadingZeros(b)))
  {
    str := "";
    var p := 0;
    while p < |b| && b[p] == 0
      invariant 0 <= p <= |b| && (forall i :: 0 <= i < p ==> b[i] == 0) && str == Chars(Zeros(p))
    {
      assert Chars(Zeros(p)) + [Char(0)] == Chars(Zeros(p + 1));
      str := str + [Char(0)];
      p := p + 1;
    }
    LeadingZerosUnique(b, p);
  }

  /** The letters of a number, lowest digit first. */
  ghost function Letters(n: nat): string
  {
    if n == 0 then [] else [Char(n % 58)] + Letters(n / 58)
  }

  lemma {:induction false} LettersAre(n: nat)
    ensures Letters(n) == Chars(DigitsOf(n, 58))
  {
    if n > 0 {
      LettersAre(n / 58);
      assert DigitsOf(n, 58) == [n % 58] + DigitsOf(n / 58, 58);
    }
  }

  method DivideOut(n: nat) returns (str: string)
    ensures str == Chars(DigitsOf(n, 58))
  {
    var bn := n;
    str := "";
    while bn > 0
      invariant str + Letters(bn) == Letters(n)
    {
      ghost var before := str;
      str := str + [Char(bn % 58)];
      assert before + ([Char(bn % 58)] + Letters(bn / 58)) == str + Letters(bn / 58);
      bn := bn / 58;
    }
    LettersAre(n);
  }

  lemma {:induction false} EncodedReversed(b: seq<nat>, v: seq<nat>)
    requires DigitsOk(b, 256) && v == DigitsOf(Value(Reverse(b), 256), 58)
    ensures Reverse(Chars(v) + Chars(Zeros(LeadingZeros(b)))) == Encoded(b)
  {
    var z := LeadingZeros(b);
    CharsBackwards(v, Zeros(z));
    assert Reverse(Zeros(z)) == Zeros(z);
  }

  lemma CharsBackwards(a: seq<nat>, b: seq<nat>)
    requires DigitsOk(a, 58) && DigitsOk(b, 58)
    ensures DigitsOk(Reverse(b) + Reverse(a), 58) && Reverse(Chars(a) + Chars(b)) == Chars(Reverse(b) + Reverse(a))
  {
  }

  lemma {:induction false} ValueSigned(b: seq<nat>)
    ensures SetVch(Reverse(b) + [0]) == Value(Reverse(b), 256)
  {
    assert Reverse(b) + [0] == Reverse(b) + Zeros(1);
    ValueZeros(Reverse(b), 1, 256);
  }

  /** Decoding: blanks, letters, blanks, and then the bytes of the number with its leading zeros. */
  method DecodeBase58(str: string) returns (r: Option<seq<nat>>)
    ensures r == Decoded(str)
  {
    r := DecodeLetters(TrimStart(CString(str)));
  }

  method DecodeLetters(psz: string) returns (r: Option<seq<nat>>)
    ensures r == DecodedLetters(TrimEnd(psz))
  {
    var p, bn := ReadLetters(psz);
    var q := SkipBlanks(psz, p);
    EndsWith(psz, p, q);
    if q < |psz| {
      return None;
    }
    r := FromNumber(psz, p, bn);
  }

  method SkipBlanks(psz: string, p: nat) returns (q: nat)
    requires p <= |psz|
    ensures p <= q <= |psz| && (forall i :: p <= i < q ==> IsSpace(psz[i])) && (q < |psz| ==> !IsSpace(psz[q]))
  {
    q := p;
    while q < |psz| && IsSpace(psz[q])
      invariant p <= q <= |psz| && forall i :: p <= i < q ==> IsSpace(psz[i])
    {
      q := q + 1;
    }
  }

  /** The bytes of the number, with a zero for every letter for zero at the front. */
  method FromNumber(psz: string, ghost p: nat, bn: nat) returns (r: Option<seq<nat>>)
    requires p <= |psz| && InAlphabet(psz[..p]) && (p < |psz| ==> DigitOf(psz[p]).None?)
    requires bn == Value(Reverse(Indices(psz[..p])), 58)
    ensures r == DecodedLetters(psz[..p])
  {
    var vchTmp := Magnitude(bn);
    var nLeadingZeros := CountOnes(psz, p);
    r := Some(Zeros(nLeadingZeros) + Reverse(vchTmp));
  }

  /** The number written by the letters at the front of a text. */
  method ReadLetters(psz: string) returns (p: nat, bn: nat)
    ensures p <= |psz| && InAlphabet(psz[..p]) && (p < |psz| ==> DigitOf(psz[p]).None?)
    ensures bn == Value(Reverse(Indices(psz[..p])), 58)
  {
    bn, p := 0, 0;
    while p < |psz| && DigitOf(psz[p]).Some?
      invariant 0 <= p <= |psz| && InAlphabet(psz[..p]) && bn == Value(Reverse(Indices(psz[..p])), 58)
    {
      ReadLetter(psz, p);
      bn := bn * 58 + DigitOf(psz[p]).value;
      p := p + 1;
    }
  }

  /** The bytes of a number without its sign byte. */
  method Magnitude(bn: nat) returns (vchTmp: seq<nat>)
    ensures vchTmp == DigitsOf(bn, 256)
  {
    vchTmp := GetVch(bn);
    Unsigned(DigitsOf(bn, 256));
    if |vchTmp| >= 2 && vchTmp[|vchTmp| - 1] == 0 && vchTmp[|vchTmp| - 2] >= 0x80 {
      vchTmp := vchTmp[..|vchTmp| - 1];
    }
  }

  lemma {:induction false} ReadLetter(s: string, p: nat)
    requires p < |s| && InAlphabet(s[..p]) && DigitOf(s[p]).Some?
    ensures InAlphabet(s[..p + 1])
    ensures Value(Reverse(Indices(s[..p + 1])), 58) == Value(Reverse(Indices(s[..p])), 58) * 58 + DigitOf(s[p]).value
  {
    assert s[..p + 1] == s[..p] + [s[p]];
    assert Indices(s[..p + 1]) == Indices(s[..p]) + [DigitOf(s[p]).value];
    ValueAppend(Indices(s[..p]), DigitOf(s[p]).value, 58);
  }

  /** After the letters come blanks up to the end, or the text is refused. */
  lemma {:induction false} EndsWith(psz: string, p: nat, q: nat)
    requires p <= q <= |psz| && InAlphabet(psz[..p]) && (p < |psz| ==> DigitOf(psz[p]).None?)
    requires (forall i :: p <= i < q ==> IsSpace(psz[i])) && (q < |psz| ==> !IsSpace(psz[q]))
    ensures q == |psz| ==> TrimEnd(psz) == psz[..p]
    ensures q < |psz| ==> !InAlphabet(TrimEnd(psz))
  {
    var t := TrimEnd(psz);
    if q < |psz| {
      assert t[p] == psz[p];
    } else if |t| < p {
      assert psz[..p][|t|] == psz[|t|];
      CharDigit(DigitOf(psz[|t|]).value);
    }
  }

  /** The sign byte goes, the digits stay. */
  lemma {:induction false} Unsigned(d: seq<nat>)
    requires Canonical(d)
    ensures var v := Signed(d, false);
            d == if |v| >= 2 && v[|v| - 1] == 0 && v[|v| - 2] >= 0x80 then v[..|v| - 1] else v
  {
    assert (d + [0])[..|d|] == d;
  }

  method CountOnes(psz: string, ghost p: nat) returns (nLeadingZeros: nat)
    requires p <= |psz| && InAlphabet(psz[..p]) && (p < |psz| ==> DigitOf(psz[p]).None?)
    ensures nLeadingZeros == LeadingZeros(Indices(psz[..p]))
  {
    nLeadingZeros := 0;
    while nLeadingZeros < |psz| && psz[nLeadingZeros] == Char(0)
      invariant nLeadingZeros <= p && forall i :: 0 <= i < nLeadingZeros ==> psz[i] == Char(0)
    {
      nLeadingZeros := nLeadingZeros + 1;
    }
    ghost var v := Indices(psz[..p]);
    assert forall i :: 0 <= i < p ==> psz[..p][i] == psz[i];
    LeadingZerosUnique(v, nLeadingZeros);
  }

  // ----- what a text stands for -----

  /** Digits and letters without those that look alike. */
  predicate IsLetter(c: char)
  {
    ('0' < c <= '9' || 'A' <= c <= 'Z' || 'a' <= c <= 'z') && c != 'O' && c != 'I' && c != 'l'
  }

  /** The alphabet is these letters in ascending order, which leaves no choice. */
  lemma AlphabetOrder(c: char, d: nat, e: nat)
    requires d < 58 && e < 58
    ensures d < e <==> Char(d) < Char(e)
    ensures IsLetter(Char(d)) && (IsLetter(c) <==> DigitOf(c).Some?)
  {
  }

  /** The number that digits stand for, the highest one first. */
  ghost function Number(v: seq<nat>, base: nat): (n: nat)
  {
    if v == [] then 0 else Number(v[..|v| - 1], base) * base + v[|v| - 1]
  }

  lemma {:induction false} NumberIs(v: seq<nat>, base: nat)
    ensures Number(v, base) == Value(Reverse(v), base)
  {
    if v != [] {
      NumberIs(v[..|v| - 1], base);
      ValueAppend(v[..|v| - 1], v[|v| - 1], base);
      assert v == v[..|v| - 1] + [v[|v| - 1]];
    }
  }

  /**
   The letters of an encoded byte string, read as digits in the order of the alphabet with the highest
   first, are the number that the bytes are, and as many ones are in front as there are zero bytes.
   */
  lemma {:induction false} EncodedMeans(b: seq<nat>, v: seq<nat>)
    requires DigitsOk(b, 256) && |v| == |Encoded(b)| && forall i :: 0 <= i < |v| ==> v[i] < 58 && Char(v[i]) == Encoded(b)[i]
    ensures Number(v, 58) == Number(b, 256) && LeadingZeros(v) == LeadingZeros(b)
  {
    var c := Convert(b, 256, 58);
    forall i | 0 <= i < |v|
      ensures v[i] == c[i]
    {
      CharDigit(v[i]);
      CharDigit(c[i]);
    }
    assert v == c;
    NumberIs(v, 58);
    NumberIs(b, 256);
    ZerosFirst(LeadingZeros(b), DigitsOf(Value(Reverse(b), 256), 58), 58);
  }
}
