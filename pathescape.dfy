/**
 * Percent-encoding of one URL path segment, as Go's `url.PathEscape` does it
 * (section 2.1 of RFC 3986), and its inverse `url.PathUnescape`. Both work
 * byte by byte; an escaped byte becomes `%` and two upper-case hex digits.
 */
module PathEscape {
  import opened Wrappers
  import opened ByteStrings

  const Percent: Byte := 37

  predicate IsAlphaNum(c: Byte) {
    (97 <= c <= 122) || (65 <= c <= 90) || (48 <= c <= 57)
  }

  /**
   * Go's `shouldEscape(c, encodePathSegment)`: letters, digits and the marks
   * `-` `_` `.` `~` stay; of the reserved characters `$ & + : = @` stay and
   * `/ ; , ?` are escaped; every other byte is escaped.
   */
  predicate ShouldEscape(c: Byte) {
    if IsAlphaNum(c) then false
    else if c == 45 || c == 95 || c == 46 || c == 126 then false  // - _ . ~
    else if c == 36 || c == 38 || c == 43 || c == 58 || c == 61 || c == 64 then false  // $ & + : = @
    else true  // / ; , ? and every other byte
  }

  /** The upper-case hex digit of a value below 16 (Go's `upperhex`). */
  function HexDigit(v: int): (d: Byte)
    requires 0 <= v < 16
  {
    if v < 10 then 48 + v else 55 + v
  }

  /** The value of a hex digit of either case (Go's `unhex`), if it is one. */
  function HexValue(c: Byte): Option<int>
  {
    if 48 <= c <= 57 then Some(c - 48)
    else if 65 <= c <= 70 then Some(c - 55)
    else if 97 <= c <= 102 then Some(c - 87)
    else None
  }

  function EscapeByte(c: Byte): Bytes
  {
    if ShouldEscape(c) then [Percent, HexDigit(c / 16), HexDigit(c % 16)] else [c]
  }

  /** `url.PathEscape`: the whole input becomes one segment, with no `/` left in it. */
  function Escape(s: Bytes): (r: Bytes)
    ensures Slash !in r
    ensures |s| <= |r| <= 3 * |s|
  {
    if s == [] then [] else EscapeByte(s[0]) + Escape(s[1..])
  }

  /** `url.PathUnescape`: `%` must be followed by two hex digits; other bytes stand for themselves. */
  function Unescape(s: Bytes): (r: Option<Bytes>)
    decreases |s|
  {
    if s == [] then Some([])
    else if s[0] != Percent then
      match Unescape(s[1..])
      case Some(rest) => Some([s[0]] + rest)
      case None => None
    else if |s| < 3 || HexValue(s[1]).None? || HexValue(s[2]).None? then None
    else
      match Unescape(s[3..])
      case Some(rest) => Some([HexValue(s[1]).value * 16 + HexValue(s[2]).value] + rest)
      case None => None
  }

  lemma HexRoundTrip(v: int)
    requires 0 <= v < 16
    ensures HexValue(HexDigit(v)) == Some(v)
  {
  }

  /** Unescaping undoes escaping: no segment is ever lost or altered. */
  lemma {:induction false} UnescapeEscape(s: Bytes)
    ensures Unescape(Escape(s)) == Some(s)
    decreases |s|
  {
    if s != [] {
      var c := s[0];
      UnescapeEscape(s[1..]);
      var e := EscapeByte(c);
      assert Escape(s) == e + Escape(s[1..]);
      if ShouldEscape(c) {
        HexRoundTrip(c / 16);
        HexRoundTrip(c % 16);
        assert Escape(s)[3..] == Escape(s[1..]);
      } else {
        assert c != Percent;
        assert Escape(s)[1..] == Escape(s[1..]);
      }
      assert [c] + s[1..] == s;
    }
  }

  /** Escaping leaves a segment unchanged exactly when no byte of it needs escaping. */
  lemma {:induction false} EscapeIdentity(s: Bytes)
    ensures Escape(s) == s <==> forall i :: 0 <= i < |s| ==> !ShouldEscape(s[i])
    decreases |s|
  {
    if s != [] {
      EscapeIdentity(s[1..]);
      if ShouldEscape(s[0]) {
        assert |Escape(s)| > |s|;
      } else {
        assert Escape(s) == [s[0]] + Escape(s[1..]);
        assert Escape(s) == s <==> Escape(s[1..]) == s[1..] by {
          if Escape(s) == s { assert Escape(s)[1..] == s[1..]; }
          if Escape(s[1..]) == s[1..] { assert [s[0]] + s[1..] == s; }
        }
        assert (forall i :: 0 <= i < |s| ==> !ShouldEscape(s[i]))
          <==> (forall i :: 0 <= i < |s[1..]| ==> !ShouldEscape(s[1..][i])) by {
          if forall i :: 0 <= i < |s[1..]| ==> !ShouldEscape(s[1..][i]) {
            forall i | 0 <= i < |s| ensures !ShouldEscape(s[i]) {
              if i > 0 { assert s[i] == s[1..][i - 1]; }
            }
          }
        }
      }
    }
  }

  /** Escaping works piece by piece. */
  lemma {:induction false} EscapeAppend(a: Bytes, b: Bytes)
    ensures Escape(a + b) == Escape(a) + Escape(b)
    decreases |a|
  {
    if a != [] {
      assert (a + b)[0] == a[0];
      assert (a + b)[1..] == a[1..] + b;
      EscapeAppend(a[1..], b);
    } else {
      assert a + b == b;
    }
  }

  /** A `/` inside a segment is written `%2F`, and the text around it is escaped as usual. */
  lemma SlashBecomesPercent2F(a: Bytes, b: Bytes)
    ensures Escape(a + [Slash] + b) == Escape(a) + Ascii("%2F") + Escape(b)
  {
    assert Escape([Slash]) == Ascii("%2F");
    EscapeAppend(a, [Slash]);
    EscapeAppend(a + [Slash], b);
  }

  /**
   * A project path such as `group/proj` (two lower-case names around one `/`)
   * becomes `group%2Fproj`: the names stay as they are and the `/` is gone.
   */
  lemma GroupProjectEscaped(group: Bytes, proj: Bytes)
    requires forall i :: 0 <= i < |group| ==> 97 <= group[i] <= 122
    requires forall i :: 0 <= i < |proj| ==> 97 <= proj[i] <= 122
    ensures Escape(group + [Slash] + proj) == group + [Percent, 50, 70] + proj
  {
    LowerCaseStays(group);
    LowerCaseStays(proj);
    var escapedSlash := [Percent, 50, 70];
    assert Ascii("%2F") == escapedSlash;
    SlashBecomesPercent2F(group, proj);
  }

  lemma LowerCaseStays(s: Bytes)
    requires forall i :: 0 <= i < |s| ==> 97 <= s[i] <= 122
    ensures Escape(s) == s
  {
    EscapeIdentity(s);
  }
}
