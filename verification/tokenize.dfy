/** The two kinds of splitting `clean_game` does: `re.split` with an
    alternation of fixed delimiters (`': |; '` and `', |\s'`), and
    `str.split()` with no argument. */
module Tokenize {

  /** Python's whitespace, as `str.isspace` and the regular expression class
      `\s` both define it for `str`. */
  predicate IsSpace(c: char) {
    || c == ' ' || '\t' <= c <= '\r' || '\U{1c}' <= c <= '\U{1f}'
    || c == '\U{85}' || c == '\U{a0}' || c == '\U{1680}'
    || '\U{2000}' <= c <= '\U{200a}' || c == '\U{2028}' || c == '\U{2029}'
    || c == '\U{202f}' || c == '\U{205f}' || c == '\U{3000}'
  }

  /** One alternative of the pattern: a fixed text, or `\s`. */
  datatype Delim = Lit(text: string) | Space

  /** The length of the match of `d` at the front of `s`; 0 when it does
      not match. An empty literal never matches. */
  function MatchLen(s: string, d: Delim): (n: nat)
    ensures n <= |s|
    ensures n > 0 ==> s[..n] == (if d.Lit? then d.text else [s[0]])
  {
    match d
    case Lit(t) => if |t| > 0 && t <= s then |t| else 0
    case Space => if |s| > 0 && IsSpace(s[0]) then 1 else 0
  }

  /** The length of the match of the alternation `ds` at the front of `s`:
      alternatives are tried left to right and the first that matches
      wins. */
  function FirstMatch(s: string, ds: seq<Delim>): (n: nat)
    ensures n <= |s|
    ensures n > 0 <==> exists i :: 0 <= i < |ds| && MatchLen(s, ds[i]) > 0
  {
    if |ds| == 0 then 0
    else
      var m := MatchLen(s, ds[0]);
      if m > 0 then m
      else
        var n := FirstMatch(s, ds[1..]);
        assert forall i :: 1 <= i < |ds| ==> ds[i] == ds[1..][i - 1];
        n
  }

  /** `re.split(pattern, s)` for an alternation of delimiters that never
      match the empty string: the pieces between non-overlapping matches
      found left to right. */
  function SplitOn(s: string, ds: seq<Delim>): (parts: seq<string>)
    ensures |parts| >= 1
    decreases |s|
  {
    if |s| == 0 then [""]
    else
      var n := FirstMatch(s, ds);
      if n > 0 then [""] + SplitOn(s[n..], ds)
      else
        var r := SplitOn(s[1..], ds);
        [[s[0]] + r[0]] + r[1..]
  }

  /** The non-empty strings of `ps`, in order. */
  function DropEmpty(ps: seq<string>): (r: seq<string>)
    ensures forall i :: 0 <= i < |r| ==> |r[i]| > 0
    ensures |r| <= |ps|
  {
    if |ps| == 0 then []
    else (if |ps[0]| == 0 then [] else [ps[0]]) + DropEmpty(ps[1..])
  }

  /** `s.split()`: the maximal runs of non-whitespace characters. */
  function SplitWhitespace(s: string): seq<string> {
    DropEmpty(SplitOn(s, [Space]))
  }

  /** The delimiters of `re.split(': |; ', ...)`. */
  const SegmentDelims: seq<Delim> := [Lit(": "), Lit("; ")]

  /** The delimiters of `re.split(', |\s', ...)`. */
  const TokenDelims: seq<Delim> := [Lit(", "), Space]

  // ---------------------------------------------------------------------------
  // Joining, the inverse of splitting

  /** `sep.join(parts)`. */
  function Join(parts: seq<string>, sep: string): string {
    if |parts| == 0 then ""
    else if |parts| == 1 then parts[0]
    else parts[0] + sep + Join(parts[1..], sep)
  }

  /** Whether a match of `d` can begin with `c`. */
  predicate Starts(d: Delim, c: char) {
    match d
    case Lit(t) => |t| > 0 && t[0] == c
    case Space => IsSpace(c)
  }

  /** No match of any delimiter can begin inside `p`. */
  predicate NoStarters(p: string, ds: seq<Delim>) {
    forall i, j :: 0 <= i < |p| && 0 <= j < |ds| ==> !Starts(ds[j], p[i])
  }

  /** `sep` is matched whole by the alternation, whatever follows it: the
      first alternative that can begin with `sep[0]` is `sep` itself. */
  predicate SepFirst(sep: string, ds: seq<Delim>) {
    |sep| > 0 && |ds| > 0 &&
    if Starts(ds[0], sep[0]) then ds[0] == Lit(sep) || (ds[0] == Space && |sep| == 1)
    else SepFirst(sep, ds[1..])
  }

  lemma {:induction false} FirstMatchNone(s: string, ds: seq<Delim>)
    requires |s| > 0 && forall j :: 0 <= j < |ds| ==> !Starts(ds[j], s[0])
    ensures FirstMatch(s, ds) == 0
  {
    forall i | 0 <= i < |ds| ensures MatchLen(s, ds[i]) == 0 {
      assert !Starts(ds[i], s[0]);
    }
  }

  lemma {:induction false} FirstMatchSep(sep: string, rest: string, ds: seq<Delim>)
    requires SepFirst(sep, ds)
    ensures FirstMatch(sep + rest, ds) == |sep|
    decreases |ds|
  {
    var s := sep + rest;
    assert s[0] == sep[0];
    if Starts(ds[0], sep[0]) {
      assert sep <= s;
    } else {
      assert MatchLen(s, ds[0]) == 0;
      FirstMatchSep(sep, rest, ds[1..]);
    }
  }

  /** A string is its first letter before the rest. */
  lemma ConsConcat(p: string, h: string)
    requires |p| > 0
    ensures [p[0]] + (p[1..] + h) == p + h
  {
  }

  /** A piece free of delimiter starts has a first letter no delimiter
      starts with, and a tail free of delimiter starts. */
  lemma NoStartersTail(p: string, ds: seq<Delim>)
    requires |p| > 0 && NoStarters(p, ds)
    ensures forall j :: 0 <= j < |ds| ==> !Starts(ds[j], p[0])
    ensures NoStarters(p[1..], ds)
  {
    forall i, j | 0 <= i < |p[1..]| && 0 <= j < |ds| ensures !Starts(ds[j], p[1..][i]) {
      assert p[1..][i] == p[i + 1];
    }
  }

  /** A piece free of delimiter starts joins the first piece of what
      follows. */
  lemma {:induction false} SplitClean(p: string, rest: string, ds: seq<Delim>)
    requires NoStarters(p, ds)
    ensures SplitOn(p + rest, ds)
         == [p + SplitOn(rest, ds)[0]] + SplitOn(rest, ds)[1..]
    decreases |p|
  {
    if |p| == 0 {
      var r := SplitOn(rest, ds);
      assert p + rest == rest;
      assert p + r[0] == r[0];
      assert [r[0]] + r[1..] == r;
    } else {
      var s := p + rest;
      assert s[0] == p[0];
      NoStartersTail(p, ds);
      FirstMatchNone(s, ds);
      assert s[1..] == p[1..] + rest;
      SplitClean(p[1..], rest, ds);
      var h, t := SplitOn(rest, ds)[0], SplitOn(rest, ds)[1..];
      var r := SplitOn(s[1..], ds);
      assert r == [p[1..] + h] + t;
      assert r[0] == p[1..] + h && r[1..] == t;
      assert SplitOn(s, ds) == [[s[0]] + r[0]] + r[1..];
      ConsConcat(p, h);
      assert SplitOn(s, ds) == [p + h] + t;
    }
  }

  /** A separator that is matched whole ends the current piece. */
  lemma SplitSep(sep: string, rest: string, ds: seq<Delim>)
    requires SepFirst(sep, ds)
    ensures SplitOn(sep + rest, ds) == [""] + SplitOn(rest, ds)
  {
    FirstMatchSep(sep, rest, ds);
    assert (sep + rest)[|sep|..] == rest;
  }

  /** A text free of delimiter starts is one piece. */
  lemma SplitWhole(p: string, ds: seq<Delim>)
    requires NoStarters(p, ds)
    ensures SplitOn(p, ds) == [p]
  {
    SplitClean(p, "", ds);
    assert p + "" == p;
  }

  /** Splitting undoes joining, when the pieces hold no delimiter start and
      the separator is matched whole. */
  lemma {:induction false} SplitJoin(parts: seq<string>, sep: string, ds: seq<Delim>)
    requires |parts| > 0 && SepFirst(sep, ds)
    requires forall i :: 0 <= i < |parts| ==> NoStarters(parts[i], ds)
    ensures SplitOn(Join(parts, sep), ds) == parts
    decreases |parts|
  {
    if |parts| == 1 {
      SplitWhole(parts[0], ds);
    } else {
      var tail := Join(parts[1..], sep);
      SplitJoin(parts[1..], sep, ds);
      SplitSep(sep, tail, ds);
      assert parts[0] + sep + tail == parts[0] + (sep + tail);
      SplitClean(parts[0], sep + tail, ds);
      assert parts[0] + "" == parts[0];
      assert [parts[0]] + parts[1..] == parts;
    }
  }

  /** `str.split()` undoes joining non-empty, whitespace-free words with
      single spaces. */
  lemma {:induction false} SplitWhitespaceJoin(words: seq<string>)
    requires |words| > 0
    requires forall i :: 0 <= i < |words| ==> |words[i]| > 0 && NoStarters(words[i], [Space])
    ensures SplitWhitespace(Join(words, " ")) == words
  {
    assert SepFirst(" ", [Space]);
    SplitJoin(words, " ", [Space]);
    NonEmptyKept(words);
  }

  /** Dropping empty strings keeps a list without any. */
  lemma {:induction false} NonEmptyKept(ps: seq<string>)
    requires forall i :: 0 <= i < |ps| ==> |ps[i]| > 0
    ensures DropEmpty(ps) == ps
    decreases |ps|
  {
    if |ps| > 0 {
      NonEmptyKept(ps[1..]);
      assert [ps[0]] + ps[1..] == ps;
    }
  }
}
