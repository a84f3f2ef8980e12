/**
 * Go strings are immutable byte sequences; this module gives them a Dafny
 * shape and models the two `strings` package operations the client relies on
 * for a one-byte separator: `strings.Join` and `strings.Split`.
 */
module ByteStrings {

  type Byte = b: int | 0 <= b < 256

  type Bytes = seq<Byte>

  const Slash: Byte := 47

  /** The bytes of a string literal; every literal of the client is plain ASCII. */
  function Ascii(s: string): (r: Bytes)
    requires forall i :: 0 <= i < |s| ==> s[i] < 128 as char
    ensures |r| == |s|
  {
    seq(|s|, i requires 0 <= i < |s| => s[i] as int)
  }

  /** `strings.Join(parts, sep)`: the parts with one separator between neighbours. */
  function Join(parts: seq<Bytes>, sep: Byte): Bytes
  {
    if parts == [] then []
    else if |parts| == 1 then parts[0]
    else parts[0] + [sep] + Join(parts[1..], sep)
  }

  /** `strings.Split(s, sep)`: the maximal separator-free pieces, in order. */
  function Split(s: Bytes, sep: Byte): (parts: seq<Bytes>)
    ensures |parts| >= 1
    decreases |s|
  {
    if s == [] then [[]]
    else
      var rest := Split(s[1..], sep);
      if s[0] == sep then [[]] + rest
      else [[s[0]] + rest[0]] + rest[1..]
  }

  /** A part in front of a non-empty list is followed by a separator. */
  lemma JoinCons(first: Bytes, parts: seq<Bytes>, sep: Byte)
    requires |parts| >= 1
    ensures Join([first] + parts, sep) == first + [sep] + Join(parts, sep)
  {
    assert ([first] + parts)[1..] == parts;
  }

  /** Every part behind its own separator, in order. */
  function EachPrefixed(parts: seq<Bytes>, sep: Byte): Bytes
  {
    if parts == [] then [] else [sep] + parts[0] + EachPrefixed(parts[1..], sep)
  }

  lemma {:induction false} EachPrefixedAppend(a: seq<Bytes>, b: seq<Bytes>, sep: Byte)
    ensures EachPrefixed(a + b, sep) == EachPrefixed(a, sep) + EachPrefixed(b, sep)
  {
    if a == [] {
      assert a + b == b;
    } else {
      assert (a + b)[0] == a[0] && (a + b)[1..] == a[1..] + b;
      EachPrefixedAppend(a[1..], b, sep);
    }
  }

  /** Joining puts the first part first and every further part behind its own separator. */
  lemma {:induction false} JoinIsEachPrefixed(first: Bytes, parts: seq<Bytes>, sep: Byte)
    ensures Join([first] + parts, sep) == first + EachPrefixed(parts, sep)
    decreases |parts|
  {
    if parts == [] {
      assert [first] + parts == [first];
    } else {
      JoinCons(first, parts, sep);
      JoinIsEachPrefixed(parts[0], parts[1..], sep);
      assert [parts[0]] + parts[1..] == parts;
      var tail := EachPrefixed(parts[1..], sep);
      assert Join(parts, sep) == parts[0] + tail;
      assert EachPrefixed(parts, sep) == [sep] + parts[0] + tail;
      assert first + [sep] + (parts[0] + tail) == first + ([sep] + parts[0] + tail);
    }
  }

  /** Three leading parts, then every further part behind its own separator. */
  lemma JoinThreeThen(a: Bytes, b: Bytes, c: Bytes, parts: seq<Bytes>, sep: Byte)
    ensures Join([a, b, c] + parts, sep) == a + [sep] + b + [sep] + c + EachPrefixed(parts, sep)
  {
    JoinIsEachPrefixed(c, parts, sep);
    JoinCons(b, [c] + parts, sep);
    assert [a, b, c] + parts == [a] + ([b] + ([c] + parts));
    JoinCons(a, [b] + ([c] + parts), sep);
  }

  /** Joining one more part appends a separator and that part. */
  lemma {:induction false} JoinSnoc(parts: seq<Bytes>, last: Bytes, sep: Byte)
    requires |parts| >= 1
    ensures Join(parts + [last], sep) == Join(parts, sep) + [sep] + last
  {
    if |parts| > 1 {
      assert (parts + [last])[1..] == parts[1..] + [last];
      JoinSnoc(parts[1..], last, sep);
    } else {
      assert (parts + [last])[1..] == [last];
    }
  }

  /** A separator splits a string into the pieces of either side. */
  lemma {:induction false} SplitAround(a: Bytes, b: Bytes, sep: Byte)
    ensures Split(a + [sep] + b, sep) == Split(a, sep) + Split(b, sep)
    decreases |a|
  {
    if a == [] {
      assert a + [sep] + b == [sep] + b;
      assert ([sep] + b)[1..] == b;
    } else {
      assert (a + [sep] + b)[0] == a[0];
      assert (a + [sep] + b)[1..] == a[1..] + [sep] + b;
      SplitAround(a[1..], b, sep);
    }
  }

  /** A string with no separator splits into itself alone. */
  lemma {:induction false} SplitWhole(s: Bytes, sep: Byte)
    requires sep !in s
    ensures Split(s, sep) == [s]
    decreases |s|
  {
    if s != [] {
      SplitWhole(s[1..], sep);
      assert [s[0]] + s[1..] == s;
    }
  }

  /** Splitting undoes joining when no part contains the separator. */
  lemma {:induction false} SplitJoin(parts: seq<Bytes>, sep: Byte)
    requires |parts| >= 1
    requires forall i :: 0 <= i < |parts| ==> sep !in parts[i]
    ensures Split(Join(parts, sep), sep) == parts
  {
    if |parts| == 1 {
      SplitWhole(parts[0], sep);
    } else {
      SplitJoin(parts[1..], sep);
      SplitWhole(parts[0], sep);
      SplitAround(parts[0], Join(parts[1..], sep), sep);
    }
  }
}
