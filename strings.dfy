/**
 * The pieces of Go's `strings` package, and of its byte-length `len`, that
 * the core relies on: splitting on a one-character separator, prefix tests,
 * and the UTF-8 length of a string.
 */
module Strings {

  /** Number of occurrences of `c` in `s`. */
  function Count(s: string, c: char): nat
  {
    if s == [] then 0 else (if s[0] == c then 1 else 0) + Count(s[1..], c)
  }

  /** The parts separated by `c`, joined back with `c` between them. */
  function Join(parts: seq<string>, c: char): string
  {
    if parts == [] then []
    else if |parts| == 1 then parts[0]
    else parts[0] + [c] + Join(parts[1..], c)
  }

  /**
   * `strings.Split(s, string(c))`: the maximal runs of `s` between
   * occurrences of `c`. The empty string has one (empty) part.
   */
  function Split(s: string, c: char): (parts: seq<string>)
    ensures |parts| == Count(s, c) + 1
    ensures forall i :: 0 <= i < |parts| ==> c !in parts[i]
  {
    if s == [] then [[]]
    else
      var rest := Split(s[1..], c);
      if s[0] == c then [[]] + rest
      else [[s[0]] + rest[0]] + rest[1..]
  }

  /** Splitting loses nothing: joining the parts gives back the text. */
  lemma {:induction false} JoinSplit(s: string, c: char)
    ensures Join(Split(s, c), c) == s
  {
    if s != [] {
      var rest := Split(s[1..], c);
      JoinSplit(s[1..], c);
      if s[0] == c {
        assert Split(s, c) == [[]] + rest;
        assert Join([[]] + rest, c) == [] + [c] + Join(rest, c);
      } else {
        JoinHead(s[0], rest, c);
      }
    }
  }

  /** Joining after prepending a character to the first part prepends it to the result. */
  lemma JoinHead(x: char, parts: seq<string>, c: char)
    requires |parts| >= 1
    ensures Join([[x] + parts[0]] + parts[1..], c) == [x] + Join(parts, c)
  {
    var ps := [[x] + parts[0]] + parts[1..];
    if |parts| == 1 {
      assert ps == [[x] + parts[0]];
    } else {
      assert ps[1..] == parts[1..];
    }
  }

  /** Splitting text that starts with a separator-free prefix `p`. */
  lemma {:induction false} SplitPrefix(p: string, tail: string, c: char)
    requires c !in p
    ensures Split(p + tail, c) == [p + Split(tail, c)[0]] + Split(tail, c)[1..]
  {
    if p != [] {
      SplitPrefix(p[1..], tail, c);
      assert (p + tail)[1..] == p[1..] + tail;
      assert [p[0]] + (p[1..] + Split(tail, c)[0]) == p + Split(tail, c)[0];
    } else {
      var parts := Split(tail, c);
      assert p + tail == tail && [] + parts[0] == parts[0];
      assert [parts[0]] + parts[1..] == parts;
    }
  }

  /** Joining separator-free parts and splitting again gives back the parts. */
  lemma {:induction false} SplitJoin(parts: seq<string>, c: char)
    requires |parts| >= 1
    requires forall i :: 0 <= i < |parts| ==> c !in parts[i]
    ensures Split(Join(parts, c), c) == parts
  {
    if |parts| == 1 {
      SplitPrefix(parts[0], [], c);
      assert parts[0] + [] == parts[0];
    } else {
      var tail := Join(parts[1..], c);
      SplitJoin(parts[1..], c);
      assert Split([c] + tail, c) == [[]] + parts[1..] by {
        assert ([c] + tail)[1..] == tail;
      }
      assert Join(parts, c) == parts[0] + ([c] + tail);
      SplitPrefix(parts[0], [c] + tail, c);
      assert parts[0] + [] == parts[0];
      assert [parts[0]] + parts[1..] == parts;
    }
  }

  /**
   * `strings.HasPrefix(s, string(c))`, for the one-character prefixes the
   * core uses: `s` is `c` followed by some rest.
   */
  predicate HasPrefix(s: string, c: char): (b: bool)
    ensures b <==> exists rest :: s == [c] + rest
  {
    assert |s| > 0 ==> s == [s[0]] + s[1..];
    |s| > 0 && s[0] == c
  }

  /** `strings.TrimPrefix(s, string(c))`: at most one leading `c` removed. */
  function TrimPrefix(s: string, c: char): (t: string)
    ensures HasPrefix(s, c) ==> [c] + t == s
    ensures !HasPrefix(s, c) ==> t == s
  {
    if HasPrefix(s, c) then s[1..] else s
  }

  /** Number of bytes the code point `c` takes in UTF-8. */
  function Utf8Width(c: char): nat
  {
    if c as int < 0x80 then 1
    else if c as int < 0x800 then 2
    else if c as int < 0x1_0000 then 3
    else 4
  }

  /** Go's `len(s)` on a string: its length in UTF-8 bytes. */
  function Utf8Len(s: string): (n: nat)
    ensures n >= |s|
    ensures n == 0 <==> s == []
  {
    if s == [] then 0 else Utf8Width(s[0]) + Utf8Len(s[1..])
  }

  predicate IsAscii(s: string)
  {
    forall i :: 0 <= i < |s| ==> s[i] as int < 0x80
  }

  /** For ASCII text the byte length is the character count. */
  lemma {:induction false} AsciiUtf8Len(s: string)
    requires IsAscii(s)
    ensures Utf8Len(s) == |s|
  {
    if s != [] {
      assert s[0] as int < 0x80;
      AsciiUtf8Len(s[1..]);
    }
  }
}
