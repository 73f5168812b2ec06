/** `os_base64url_decode`: base64url (RFC 4648, section 5) through a 32-bit accumulator. */
module Base64Url {
  import opened CStrings

  /** Position in the alphabet, or None. */
  function Digit(c: char): (d: Option<nat>)
    ensures d.Some? ==> d.value < 64
  {
    if 'A' <= c <= 'Z' then Some(c as int - 'A' as int)
    else if 'a' <= c <= 'z' then Some(c as int - 'a' as int + 26)
    else if '0' <= c <= '9' then Some(c as int - '0' as int + 52)
    else if c == '-' then Some(62)
    else if c == '_' then Some(63)
    else None
  }

  function Letter(d: nat): (c: char)
    requires d < 64
    ensures Digit(c) == Some(d) && c != '='
  {
    if d < 26 then (d + 'A' as int) as char
    else if d < 52 then (d - 26 + 'a' as int) as char
    else if d < 62 then (d - 52 + '0' as int) as char
    else if d == 62 then '-' else '_'
  }

  /** The alphabet of RFC 4648, section 5. */
  const UPPER := "ABCDEFGHIJKLMNOPQRSTUVWXYZ"
  const LOWER := "abcdefghijklmnopqrstuvwxyz"
  const ALPHABET := UPPER + LOWER + "0123456789" + "-_"

  /** A digit is the position in it. */
  lemma DigitIsPosition(c: char, d: nat)
    ensures |ALPHABET| == 64
    ensures Digit(c) == Some(d) <==> d < 64 && ALPHABET[d] == c
    ensures d < 64 ==> Letter(d) == ALPHABET[d]
  {
    LettersInOrder();
    hide UPPER, LOWER;
    if d < 64 { assert ALPHABET[d] == Letter(d); }
  }

  lemma LettersInOrder()
    ensures |UPPER| == |LOWER| == 26
    ensures forall d :: 0 <= d < 26 ==> UPPER[d] as int == 'A' as int + d && LOWER[d] as int == 'a' as int + d
    ensures forall d :: 0 <= d < 10 ==> "0123456789"[d] as int == '0' as int + d
  {
  }

  /** The characters before the first `=`: all the decoder looks at. */
  function Unpadded(s: string): (r: string)
    ensures r <= s && '=' !in r
    ensures |r| < |s| ==> s[|r|] == '='
  {
    if s == "" || s[0] == '=' then "" else [s[0]] + Unpadded(s[1..])
  }

  predicate Alphabetic(s: string) {
    forall i :: 0 <= i < |s| ==> Digit(s[i]).Some?
  }

  /** 2 to the number of spare bits. */
  function Weight(bits: int): (w: nat)
    requires bits == 0 || bits == 2 || bits == 4 || bits == 6
    ensures w > 0
  {
    if bits == 0 then 1 else if bits == 2 then 4 else if bits == 4 then 16 else 64
  }

  /** The bytes that come out, reading on with `pend` in `bits` spare bits. No word size here: the
      32-bit accumulator of the source is proved to give the same bytes. */
  function Run(s: string, pend: nat, bits: nat): string
    requires Alphabetic(s) && SpareOk(pend, bits)
  {
    if s == "" then ""
    else
      var v := 64 * pend + Digit(s[0]).value;
      if bits == 0 then Run(s[1..], v, 6)
      else
        var w := Weight(bits - 2);
        [(v / w) as char] + Run(s[1..], v % w, bits - 2)
  }

  predicate SpareOk(pend: int, bits: int) {
    (bits == 0 || bits == 2 || bits == 4 || bits == 6) && 0 <= pend < Weight(bits)
  }

  predicate IsBytes(b: string) { forall i :: 0 <= i < |b| ==> b[i] as int < 256 }

  /** What the text decodes to. */
  function Decoded(s: string): string
    requires Alphabetic(Unpadded(s))
  {
    Run(Unpadded(s), 0, 0)
  }

  // ---------------------------------------------------------------- the decoder

  const WORD := 0x1_0000_0000

  /** One step of the accumulator. The wrap at 32 bits never reaches the bits that still matter. */
  lemma WrapNeverMatters(acc: nat, d: nat, bits: nat)
    requires acc < WORD && d < 64 && (bits == 0 || bits == 2 || bits == 4 || bits == 6)
    ensures var acc' := (64 * acc + d) % WORD;
            var v := 64 * (acc % Weight(bits)) + d;
            if bits == 0 then acc' % Weight(6) == v
            else acc' / Weight(bits - 2) % 256 == v / Weight(bits - 2) &&
                 acc' % Weight(bits - 2) == v % Weight(bits - 2)
  {
    var n := 64 * acc + d;
    var q := n / WORD;
    var pend := acc % Weight(bits);
    var h := acc / Weight(bits);
    var v := 64 * pend + d;
    if bits == 0 {
      assert n % WORD == 64 * (acc - 0x400_0000 * q) + d;
    } else if bits == 2 {
      SplitByte(n % WORD, h - 0x100_0000 * q, v, 1);
    } else if bits == 4 {
      SplitByte(n % WORD, h - 0x40_0000 * q, v, 4);
    } else {
      SplitByte(n % WORD, h - 0x10_0000 * q, v, 16);
    }
  }

  lemma SplitByte(x: nat, k: int, v: nat, w: nat)
    requires w == 1 || w == 4 || w == 16
    requires x == 256 * w * k + v && v < 256 * w
    ensures x / w % 256 == v / w && x % w == v % w
  {
    var a, b := v / w, v % w;
    assert k >= 0 && v == a * w + b;
    var q := 256 * k + a;
    if w == 4 {
      DivOf(x, 4, q, b);
    } else if w == 16 {
      DivOf(x, 16, q, b);
    }
    assert q % 256 == a;
  }

  method DecodeInto(input: string, out: array<char>) returns (ok: bool)
    requires out.Length > 0
    modifies out
    ensures ok <==> Alphabetic(Unpadded(input)) && 6 * |Unpadded(input)| / 8 < out.Length
    ensures ok ==> Holds(out, Decoded(input))
  {
    hide Run, Unpadded, Digit;
    ghost var s := Unpadded(input);
    ghost var done := "";
    var oi, acc, bits, i := 0, 0, 0, 0;
    while i < |input|
      invariant 0 <= i <= |s| && Alphabetic(s[..i])
      invariant oi == |done| < out.Length && out[..oi] == done
      invariant 0 <= acc < WORD && 6 * i == 8 * oi + bits && (bits == 0 || bits == 2 || bits == 4 || bits == 6)
      invariant Alphabetic(s) ==> Emits(s, i, acc, bits, done)
      decreases |input| - i
    {
      var c := input[i];
      if c == '=' { break; }
      assert i < |s| && s[i] == c;
      var d := Digit(c);
      if d.None? { return false; }
      if Alphabetic(s) { Advance(s, i, acc, bits, done); }
      acc := (64 * acc + d.value) % WORD;
      bits := bits + 6;
      if bits >= 8 {
        bits := bits - 8;
        if oi >= out.Length - 1 { return false; }
        out[oi] := (acc / Weight(bits) % 256) as char;
        done := done + [out[oi]];
        oi := oi + 1;
      }
      i := i + 1;
    }
    if Alphabetic(s) { AllEmitted(s, acc, bits, done); }
    out[oi] := '\0';
    return true;
  }

  lemma AllEmitted(s: string, acc: nat, bits: nat, done: string)
    requires Alphabetic(s) && Emits(s, |s|, acc, bits, done)
    ensures done == Run(s, 0, 0)
  {
    assert s[|s|..] == "";
  }

  /** The bytes written and the bytes to come are the whole result. */
  ghost predicate Emits(s: string, i: nat, acc: nat, bits: nat, done: string)
    requires Alphabetic(s)
  {
    i <= |s| && (bits == 0 || bits == 2 || bits == 4 || bits == 6) &&
    Run(s, 0, 0) == done + Run(s[i..], acc % Weight(bits), bits)
  }

  lemma Advance(s: string, i: nat, acc: nat, bits: nat, done: string)
    requires Alphabetic(s) && i < |s| && acc < WORD && Emits(s, i, acc, bits, done)
    ensures var acc' := (64 * acc + Digit(s[i]).value) % WORD;
            if bits == 0 then Emits(s, i + 1, acc', 6, done)
            else Emits(s, i + 1, acc', bits - 2, done + [(acc' / Weight(bits - 2) % 256) as char])
  {
    WrapNeverMatters(acc, Digit(s[i]).value, bits);
    RunStep(s, i, acc % Weight(bits), bits);
  }

  lemma RunStep(s: string, i: nat, pend: nat, bits: nat)
    requires Alphabetic(s) && i < |s| && SpareOk(pend, bits)
    ensures var v := 64 * pend + Digit(s[i]).value;
            Run(s[i..], pend, bits) ==
            if bits == 0 then Run(s[i + 1..], v, 6)
            else [(v / Weight(bits - 2)) as char] + Run(s[i + 1..], v % Weight(bits - 2), bits - 2)
  {
    assert s[i..][1..] == s[i + 1..];
  }

  // ---------------------------------------------------------------- leading bytes

  /** A text read as one big-endian number in base 64, from `acc` on. */
  function Value(acc: nat, s: string): nat
    requires Alphabetic(s)
    decreases |s|
  {
    if s == "" then acc else Value(64 * acc + Digit(s[0]).value, s[1..])
  }

  /** Bytes read as one big-endian number in base 256, from `acc` on. */
  function Bytes(acc: nat, b: string): nat
    decreases |b|
  {
    if b == "" then acc else Bytes(256 * acc + b[0] as int, b[1..])
  }

  /** How many bytes come out, and how many bits are left over. */
  lemma {:induction false} RunLength(s: string, pend: nat, bits: nat)
    requires Alphabetic(s) && SpareOk(pend, bits)
    ensures SpareOk(0, 6 * |s| + bits - 8 * |Run(s, pend, bits)|) && IsBytes(Run(s, pend, bits))
    decreases |s|
  {
    if s != "" {
      var v := 64 * pend + Digit(s[0]).value;
      if bits == 0 {
        RunLength(s[1..], v, 6);
      } else {
        RunLength(s[1..], v % Weight(bits - 2), bits - 2);
      }
    }
  }

  ghost predicate LeadingFrom(x: nat, s: string, a: nat, r: string, bits: nat)
    requires Alphabetic(s)
  {
    var spare := 6 * |s| + bits - 8 * |r|;
    SpareOk(0, spare) && Bytes(a, r) == Value(x, s) / Weight(spare)
  }

  lemma {:induction false} RunIsLeading(s: string, x: nat, a: nat, pend: nat, bits: nat)
    requires Alphabetic(s) && SpareOk(pend, bits) && x == a * Weight(bits) + pend
    ensures LeadingFrom(x, s, a, Run(s, pend, bits), bits)
    decreases |s|
  {
    hide LeadingFrom;
    if s == "" {
      DropsSpare(x, a, pend, bits);
    } else {
      var d := Digit(s[0]).value;
      var v := 64 * pend + d;
      Regroup(x, a, pend, bits, d);
      if bits == 0 {
        RunIsLeading(s[1..], 64 * x + d, a, v, 6);
        LeadingWithoutByte(x, s, a, Run(s[1..], v, 6));
      } else {
        var w := Weight(bits - 2);
        var rest := Run(s[1..], v % w, bits - 2);
        RunIsLeading(s[1..], 64 * x + d, 256 * a + v / w, v % w, bits - 2);
        LeadingWithByte(x, s, a, (v / w) as char, rest, bits);
      }
    }
  }

  lemma LeadingWithoutByte(x: nat, s: string, a: nat, r: string)
    requires Alphabetic(s) && s != "" && LeadingFrom(64 * x + Digit(s[0]).value, s[1..], a, r, 6)
    ensures LeadingFrom(x, s, a, r, 0)
  {
  }

  lemma LeadingWithByte(x: nat, s: string, a: nat, c: char, r: string, bits: nat)
    requires Alphabetic(s) && s != "" && bits >= 2
    requires LeadingFrom(64 * x + Digit(s[0]).value, s[1..], 256 * a + c as int, r, bits - 2)
    ensures LeadingFrom(x, s, a, [c] + r, bits)
  {
    BytesCons(a, c, r);
  }

  lemma BytesCons(a: nat, c: char, rest: string)
    ensures Bytes(a, [c] + rest) == Bytes(256 * a + c as int, rest)
  {
    assert ([c] + rest)[1..] == rest;
  }

  lemma DropsSpare(x: nat, a: nat, pend: nat, bits: nat)
    requires SpareOk(pend, bits) && x == a * Weight(bits) + pend
    ensures LeadingFrom(x, "", a, "", bits)
  {
    assert x / Weight(bits) == a;
  }

  lemma Regroup(x: nat, a: nat, pend: nat, bits: nat, d: nat)
    requires SpareOk(pend, bits) && d < 64 && x == a * Weight(bits) + pend
    ensures var v := 64 * pend + d;
            if bits == 0 then 64 * x + d == a * Weight(6) + v
            else var w := Weight(bits - 2);
                 v / w < 256 && v % w < w && 64 * x + d == (256 * a + v / w) * w + v % w
  {
  }

  /** The decoded bytes are the leading 8*floor(6n/8) bits of the 6-bit concatenation of the text. */
  lemma DecodesLeadingBytes(s: string)
    requires Alphabetic(s)
    ensures |Run(s, 0, 0)| == 6 * |s| / 8
    ensures SpareOk(0, 6 * |s| % 8) && Bytes(0, Run(s, 0, 0)) == Value(0, s) / Weight(6 * |s| % 8)
  {
    RunLength(s, 0, 0);
    RunIsLeading(s, 0, 0, 0, 0);
  }

  // ---------------------------------------------------------------- round trip

  /** The encoder of RFC 4648, section 5, without padding. */
  function Encode(b: string): (r: string)
    requires IsBytes(b)
    ensures Alphabetic(r) && '=' !in r
    decreases |b|
  {
    if b == "" then ""
    else
      var x := b[0] as int;
      if |b| == 1 then [Letter(x / 4)] + ([Letter(x % 4 * 16)] + "")
      else
        var y := b[1] as int;
        if |b| == 2 then [Letter(x / 4)] + ([Letter(x % 4 * 16 + y / 16)] + ([Letter(y % 16 * 4)] + ""))
        else
          var z := b[2] as int;
          [Letter(x / 4)] + ([Letter(x % 4 * 16 + y / 16)] + ([Letter(y % 16 * 4 + z / 64)] +
            ([Letter(z % 64)] + Encode(b[3..]))))
  }

  /** The first letter of a group fills no byte yet. */
  lemma RunOpens(d: nat, rest: string)
    requires d < 64 && Alphabetic(rest)
    ensures Run([Letter(d)] + rest, 0, 0) == Run(rest, d, 6)
  {
    assert ([Letter(d)] + rest)[1..] == rest;
  }

  /** Every further letter completes a byte. */
  lemma RunCons(d: nat, rest: string, pend: nat, bits: nat, byte: nat, pend': nat)
    requires d < 64 && Alphabetic(rest) && SpareOk(pend, bits) && bits > 0 && SpareOk(pend', bits - 2) && byte < 256
    requires 64 * pend + d == byte * Weight(bits - 2) + pend'
    ensures Run([Letter(d)] + rest, pend, bits) == [byte as char] + Run(rest, pend', bits - 2)
  {
    DivOf(64 * pend + d, Weight(bits - 2), byte, pend');
    RunLetter(d, rest, pend, bits);
    hide Run, Letter;
  }

  lemma RunLetter(d: nat, rest: string, pend: nat, bits: nat)
    requires d < 64 && Alphabetic(rest) && SpareOk(pend, bits) && bits > 0
    ensures var v := 64 * pend + d;
            Run([Letter(d)] + rest, pend, bits) ==
            [(v / Weight(bits - 2)) as char] + Run(rest, v % Weight(bits - 2), bits - 2)
  {
    assert ([Letter(d)] + rest)[1..] == rest;
  }

  lemma DivOf(v: nat, w: nat, q: nat, r: nat)
    requires (w == 1 || w == 4 || w == 16) && v == q * w + r && r < w
    ensures v / w == q && v % w == r
  {
  }

  /** Four letters give back the three bytes they were made of, and leave no spare bits. */
  lemma FourLetters(x: nat, y: nat, z: nat, rest: string)
    requires x < 256 && y < 256 && z < 256 && Alphabetic(rest)
    ensures Run([Letter(x / 4)] + ([Letter(x % 4 * 16 + y / 16)] + ([Letter(y % 16 * 4 + z / 64)] +
                ([Letter(z % 64)] + rest))), 0, 0) ==
            [x as char] + ([y as char] + ([z as char] + Run(rest, 0, 0)))
  {
    hide Run, Letter;
    var s3 := [Letter(z % 64)] + rest;
    var s2 := [Letter(y % 16 * 4 + z / 64)] + s3;
    var s1 := [Letter(x % 4 * 16 + y / 16)] + s2;
    RunOpens(x / 4, s1);
    RunCons(x % 4 * 16 + y / 16, s2, x / 4, 6, x, y / 16);
    RunCons(y % 16 * 4 + z / 64, s3, y / 16, 4, y, z / 64);
    RunCons(z % 64, rest, z / 64, 2, z, 0);
  }

  lemma ThreeLetters(x: nat, y: nat)
    requires x < 256 && y < 256
    ensures Run([Letter(x / 4)] + ([Letter(x % 4 * 16 + y / 16)] + ([Letter(y % 16 * 4)] + "")), 0, 0) ==
            [x as char] + ([y as char] + "")
  {
    RunNothing();
    hide Run, Letter;
    var s2 := [Letter(y % 16 * 4)] + "";
    var s1 := [Letter(x % 4 * 16 + y / 16)] + s2;
    RunOpens(x / 4, s1);
    RunCons(x % 4 * 16 + y / 16, s2, x / 4, 6, x, y / 16);
    RunCons(y % 16 * 4, "", y / 16, 4, y, 0);
  }

  lemma TwoLetters(x: nat)
    requires x < 256
    ensures Run([Letter(x / 4)] + ([Letter(x % 4 * 16)] + ""), 0, 0) == [x as char] + ""
  {
    RunNothing();
    hide Run, Letter;
    RunOpens(x / 4, [Letter(x % 4 * 16)] + "");
    RunCons(x % 4 * 16, "", x / 4, 6, x, 0);
  }

  /** Decoding inverts encoding for every byte string. */
  lemma {:induction false} DecodesEncoded(b: string)
    requires IsBytes(b)
    ensures Run(Encode(b), 0, 0) == b
    decreases |b|
  {
    hide Run, Letter;
    if |b| == 1 {
      TwoLetters(b[0] as int);
    } else if |b| == 2 {
      ThreeLetters(b[0] as int, b[1] as int);
    } else if b != "" {
      DecodesEncoded(b[3..]);
      FourLetters(b[0] as int, b[1] as int, b[2] as int, Encode(b[3..]));
      assert b == [b[0]] + ([b[1]] + ([b[2]] + b[3..]));
    } else {
      RunNothing();
    }
  }

  lemma RunNothing()
    ensures Run("", 0, 0) == "" && Run("", 0, 2) == "" && Run("", 0, 4) == ""
  {
  }

  /** Padded to a multiple of four or not, an encoded text decodes to its bytes in any buffer they fit. */
  lemma RoundTrip(b: string, pad: string)
    requires IsBytes(b) && (pad == "" || pad[0] == '=')
    ensures var s := Encode(b) + pad;
            Unpadded(s) == Encode(b) && Decoded(s) == b && 6 * |Encode(b)| / 8 == |b|
  {
    UnpaddedOf(Encode(b), pad);
    DecodesEncoded(b);
    DecodesLeadingBytes(Encode(b));
  }

  lemma {:induction false} UnpaddedOf(s: string, pad: string)
    requires '=' !in s && (pad == "" || pad[0] == '=')
    ensures Unpadded(s + pad) == s
  {
    if s == "" {
      assert s + pad == pad;
    } else {
      assert (s + pad)[1..] == s[1..] + pad;
      UnpaddedOf(s[1..], pad);
    }
  }
}
