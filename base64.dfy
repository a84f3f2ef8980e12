/**
 * Standard base64 (section 4 of RFC 4648) as Go's `base64.StdEncoding`
 * decodes it: padding with `=` is mandatory, CR and LF bytes are skipped
 * wherever they appear, and the unused low bits of a padded final quantum
 * are ignored (the encoding is not in strict mode).
 */
module Base64 {
  import opened Wrappers
  import opened ByteStrings

  type Sextet = v: int | 0 <= v < 64

  const Pad: Byte := 61
  const CR: Byte := 13
  const LF: Byte := 10

  /** The alphabet: `A`-`Z`, `a`-`z`, `0`-`9`, `+`, `/`. */
  function CharOf(v: Sextet): (c: Byte)
    ensures c != Pad && c != CR && c != LF
  {
    if v < 26 then 65 + v
    else if v < 52 then 97 + (v - 26)
    else if v < 62 then 48 + (v - 52)
    else if v == 62 then 43
    else 47
  }

  /** Go's `decodeMap`: the value of an alphabet byte, nothing for any other byte (`=` included). */
  function SextetOf(c: Byte): Option<Sextet>
  {
    if 65 <= c <= 90 then Some(c - 65)
    else if 97 <= c <= 122 then Some(c - 97 + 26)
    else if 48 <= c <= 57 then Some(c - 48 + 52)
    else if c == 43 then Some(62)
    else if c == 47 then Some(63)
    else None
  }

  /** The input without the CR and LF bytes, which the decoder skips. */
  function StripNewlines(s: Bytes): (r: Bytes)
    ensures CR !in r && LF !in r
    ensures |r| <= |s|
  {
    if s == [] then []
    else (if s[0] == CR || s[0] == LF then [] else [s[0]]) + StripNewlines(s[1..])
  }

  /** The three bytes that four sextets carry, 6 bits each, most significant first. */
  function Byte0(a: Sextet, b: Sextet): Byte { a * 4 + b / 16 }
  function Byte1(b: Sextet, c: Sextet): Byte { (b % 16) * 16 + c / 4 }
  function Byte2(c: Sextet, d: Sextet): Byte { (c % 4) * 64 + d }

  /**
   * One quantum of four input bytes (CR and LF already skipped). Padding is
   * accepted only in the quantum that ends the input (`last`): `xx==` gives
   * one byte, `xxx=` two.
   */
  function DecodeQuantum(q: Bytes, last: bool): (r: Option<Bytes>)
    requires |q| == 4
    ensures r.Some? ==> 1 <= |r.value| <= 3 && (!last ==> |r.value| == 3)
  {
    var a, b, c, d := SextetOf(q[0]), SextetOf(q[1]), SextetOf(q[2]), SextetOf(q[3]);
    if a.None? || b.None? then None
    else if c.Some? && d.Some? then
      Some([Byte0(a.value, b.value), Byte1(b.value, c.value), Byte2(c.value, d.value)])
    else if !last then None
    else if c.Some? && q[3] == Pad then Some([Byte0(a.value, b.value), Byte1(b.value, c.value)])
    else if q[2] == Pad && q[3] == Pad then Some([Byte0(a.value, b.value)])
    else None
  }

  function Prepend(head: Bytes, rest: Option<Bytes>): Option<Bytes>
  {
    match rest
    case None => None
    case Some(tail) => Some(head + tail)
  }

  /** A newline-free input, quantum by quantum; an incomplete final quantum is an error. */
  function DecodeQuanta(s: Bytes): Option<Bytes>
    decreases |s|
  {
    if s == [] then Some([])
    else if |s| < 4 then None
    else
      match DecodeQuantum(s[..4], |s| == 4)
      case None => None
      case Some(head) => Prepend(head, DecodeQuanta(s[4..]))
  }

  /** `base64.StdEncoding.DecodeString`: nothing when the input is corrupt. */
  function Decode(s: Bytes): Option<Bytes>
  {
    DecodeQuanta(StripNewlines(s))
  }

  /** Three bytes as a full quantum. */
  function EncodeThree(x: Byte, y: Byte, z: Byte): Bytes
  {
    [CharOf(x / 4), CharOf((x % 4) * 16 + y / 16), CharOf((y % 16) * 4 + z / 64), CharOf(z % 64)]
  }

  /** Two final bytes as a quantum padded with one `=`. */
  function EncodeTwo(x: Byte, y: Byte): Bytes
  {
    [CharOf(x / 4), CharOf((x % 4) * 16 + y / 16), CharOf((y % 16) * 4), Pad]
  }

  /** One final byte as a quantum padded with `==`. */
  function EncodeOne(x: Byte): Bytes
  {
    [CharOf(x / 4), CharOf((x % 4) * 16), Pad, Pad]
  }

  /** `base64.StdEncoding.EncodeToString`, the canonical padded encoding. */
  function Encode(b: Bytes): (r: Bytes)
  {
    if b == [] then []
    else if |b| == 1 then EncodeOne(b[0])
    else if |b| == 2 then EncodeTwo(b[0], b[1])
    else EncodeThree(b[0], b[1], b[2]) + Encode(b[3..])
  }

  lemma SextetOfCharOf(v: Sextet)
    ensures SextetOf(CharOf(v)) == Some(v)
  {
  }

  /** The sextets of three bytes reassemble into those bytes. */
  lemma Reassemble(x: Byte, y: Byte, z: Byte)
    ensures Byte0(x / 4, (x % 4) * 16 + y / 16) == x
    ensures Byte1((x % 4) * 16 + y / 16, (y % 16) * 4 + z / 64) == y
    ensures Byte2((y % 16) * 4 + z / 64, z % 64) == z
  {
  }

  lemma {:induction false} StripNothing(s: Bytes)
    requires CR !in s && LF !in s
    ensures StripNewlines(s) == s
    decreases |s|
  {
    if s != [] {
      StripNothing(s[1..]);
      assert [s[0]] + s[1..] == s;
    }
  }

  /** The quantum that encodes three bytes decodes to them, wherever it stands. */
  lemma QuantumOfThree(x: Byte, y: Byte, z: Byte, last: bool)
    ensures DecodeQuantum(EncodeThree(x, y, z), last) == Some([x, y, z])
  {
    Reassemble(x, y, z);
    SextetOfCharOf(x / 4);
    SextetOfCharOf((x % 4) * 16 + y / 16);
    SextetOfCharOf((y % 16) * 4 + z / 64);
    SextetOfCharOf(z % 64);
  }

  /** The final quantum `xxx=` decodes to the two bytes it encodes. */
  lemma QuantumOfTwo(x: Byte, y: Byte)
    ensures DecodeQuantum(EncodeTwo(x, y), true) == Some([x, y])
  {
    Reassemble(x, y, 0);
    SextetOfCharOf(x / 4);
    SextetOfCharOf((x % 4) * 16 + y / 16);
    SextetOfCharOf((y % 16) * 4);
  }

  /** The final quantum `xx==` decodes to the byte it encodes. */
  lemma QuantumOfOne(x: Byte)
    ensures DecodeQuantum(EncodeOne(x), true) == Some([x])
  {
    Reassemble(x, 0, 0);
    SextetOfCharOf(x / 4);
    SextetOfCharOf((x % 4) * 16);
  }

  /** A quantum in front of the rest of the input decodes in front of the rest's decoding. */
  lemma DecodeQuantaCons(q: Bytes, rest: Bytes, head: Bytes)
    requires |q| == 4 && DecodeQuantum(q, rest == []) == Some(head)
    ensures DecodeQuanta(q + rest) == Prepend(head, DecodeQuanta(rest))
  {
    assert (q + rest)[..4] == q && (q + rest)[4..] == rest;
  }

  lemma DecodeQuantaEncodeOne(x: Byte)
    ensures DecodeQuanta(Encode([x])) == Some([x])
  {
    QuantumOfOne(x);
    DecodeQuantaCons(EncodeOne(x), [], [x]);
    assert EncodeOne(x) + [] == Encode([x]) && [x] + [] == [x];
  }

  lemma DecodeQuantaEncodeTwo(x: Byte, y: Byte)
    ensures DecodeQuanta(Encode([x, y])) == Some([x, y])
  {
    QuantumOfTwo(x, y);
    DecodeQuantaCons(EncodeTwo(x, y), [], [x, y]);
    assert EncodeTwo(x, y) + [] == Encode([x, y]) && [x, y] + [] == [x, y];
  }

  lemma EncodeFront(b: Bytes)
    requires |b| >= 3
    ensures Encode(b) == EncodeThree(b[0], b[1], b[2]) + Encode(b[3..])
  {
  }

  lemma QuantumOfFront(b: Bytes)
    requires |b| >= 3
    ensures DecodeQuantum(EncodeThree(b[0], b[1], b[2]), Encode(b[3..]) == []) == Some(b[..3])
  {
    QuantumOfThree(b[0], b[1], b[2], Encode(b[3..]) == []);
    assert [b[0], b[1], b[2]] == b[..3];
  }

  lemma DecodeQuantaEncodeFront(b: Bytes)
    requires |b| >= 3
    ensures DecodeQuanta(Encode(b)) == Prepend(b[..3], DecodeQuanta(Encode(b[3..])))
  {
    EncodeFront(b);
    QuantumOfFront(b);
    DecodeQuantaCons(EncodeThree(b[0], b[1], b[2]), Encode(b[3..]), b[..3]);
  }

  lemma {:induction false} DecodeQuantaEncode(b: Bytes)
    ensures DecodeQuanta(Encode(b)) == Some(b)
    decreases |b|
  {
    if |b| == 1 {
      assert b == [b[0]];
      DecodeQuantaEncodeOne(b[0]);
    } else if |b| == 2 {
      assert b == [b[0], b[1]];
      DecodeQuantaEncodeTwo(b[0], b[1]);
    } else if |b| >= 3 {
      DecodeQuantaEncodeFront(b);
      DecodeQuantaEncode(b[3..]);
      assert b[..3] + b[3..] == b;
    }
  }

  lemma {:induction false} EncodeHasNoNewlines(b: Bytes)
    ensures CR !in Encode(b) && LF !in Encode(b)
    decreases |b|
  {
    if |b| >= 3 {
      EncodeHasNoNewlines(b[3..]);
    }
  }

  /** Decoding undoes encoding: every byte string survives the round trip. */
  lemma DecodeEncode(b: Bytes)
    ensures Decode(Encode(b)) == Some(b)
  {
    EncodeHasNoNewlines(b);
    StripNothing(Encode(b));
    DecodeQuantaEncode(b);
  }

  /** A decoded input had whole quanta, and each quantum gave one to three bytes. */
  lemma {:induction false} DecodedLength(s: Bytes)
    requires DecodeQuanta(s).Some?
    ensures |s| % 4 == 0
    ensures 3 * (|s| / 4) - 2 <= |DecodeQuanta(s).value| <= 3 * (|s| / 4)
    decreases |s|
  {
    if s != [] {
      var head := DecodeQuantum(s[..4], |s| == 4).value;
      var rest := s[4..];
      assert DecodeQuanta(s).value == head + DecodeQuanta(rest).value;
      DecodedLength(rest);
      assert |s| / 4 == |rest| / 4 + 1;
    }
  }

  /** An input whose length without newlines is not a multiple of four is corrupt. */
  lemma IncompleteQuantum(s: Bytes)
    requires |StripNewlines(s)| % 4 != 0
    ensures Decode(s) == None
  {
    if Decode(s).Some? {
      DecodedLength(StripNewlines(s));
    }
  }

  lemma {:induction false} StripAppend(a: Bytes, b: Bytes)
    ensures StripNewlines(a + b) == StripNewlines(a) + StripNewlines(b)
    decreases |a|
  {
    if a == [] {
      assert a + b == b;
    } else {
      var rest := a[1..];
      assert a == [a[0]] + rest;
      assert a + b == [a[0]] + (rest + b);
      StripCons(a[0], rest);
      StripCons(a[0], rest + b);
      StripAppend(rest, b);
      var head: Bytes := if a[0] == CR || a[0] == LF then [] else [a[0]];
      var x, y := StripNewlines(rest), StripNewlines(b);
      assert head + (x + y) == (head + x) + y;
    }
  }

  lemma StripCons(x: Byte, s: Bytes)
    ensures StripNewlines([x] + s) == (if x == CR || x == LF then [] else [x]) + StripNewlines(s)
  {
    assert ([x] + s)[1..] == s;
  }

  /** A CR or LF anywhere in the input changes nothing: wrapped content decodes as unwrapped. */
  lemma NewlineIgnored(a: Bytes, b: Bytes, c: Byte)
    requires c == CR || c == LF
    ensures Decode(a + [c] + b) == Decode(a + b)
  {
    StripAppend(a + [c], b);
    StripAppend(a, [c]);
    StripAppend(a, b);
    assert StripNewlines([c]) == [];
    assert StripNewlines(a) + [] == StripNewlines(a);
  }

  /** The first pass of the decoder: drop every CR and LF byte. */
  method SkipNewlines(s: Bytes) returns (t: Bytes)
    ensures t == StripNewlines(s)
  {
    t := [];
    var i := 0;
    while i < |s|
      invariant 0 <= i <= |s|
      invariant t == StripNewlines(s[..i])
    {
      StripAppend(s[..i], [s[i]]);
      assert s[..i + 1] == s[..i] + [s[i]];
      if s[i] != CR && s[i] != LF {
        t := t + [s[i]];
      }
      i := i + 1;
    }
    assert s[..i] == s;
  }

  lemma PrependNothing(rest: Option<Bytes>)
    ensures Prepend([], rest) == rest
  {
    if rest.Some? {
      assert [] + rest.value == rest.value;
    }
  }

  /**
   * `base64.StdEncoding.DecodeString`: returns what Go's decoder returns,
   * computed here by a pass that drops newlines and then a loop that decodes
   * one quantum of four bytes at a time.
   */
  method DecodeString(s: Bytes) returns (r: Option<Bytes>)
    ensures r == Decode(s)
  {
    var t := SkipNewlines(s);
    var out: Bytes := [];
    var j := 0;
    assert t[j..] == t;
    PrependNothing(DecodeQuanta(t));
    while j < |t|
      invariant 0 <= j <= |t|
      invariant DecodeQuanta(t) == Prepend(out, DecodeQuanta(t[j..]))
      decreases |t| - j
    {
      if |t| - j < 4 {
        return None;
      }
      assert t[j..][..4] == t[j..j + 4] && t[j..][4..] == t[j + 4..];
      var q := DecodeQuantum(t[j..j + 4], j + 4 == |t|);
      if q.None? {
        return None;
      }
      assert DecodeQuanta(t[j..]) == Prepend(q.value, DecodeQuanta(t[j + 4..]));
      if DecodeQuanta(t[j + 4..]).Some? {
        assert out + (q.value + DecodeQuanta(t[j + 4..]).value)
            == (out + q.value) + DecodeQuanta(t[j + 4..]).value;
      }
      out := out + q.value;
      j := j + 4;
    }
    assert t[j..] == [] && out + [] == out;
    return Some(out);
  }
}
