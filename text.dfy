/**
 * The operations on Python `str` values that the modelled code relies on:
 * `startswith`, the `in` operator, `replace`, `split`, `join`, `strip` and
 * `str()` of an integer. Strings are sequences of characters.
 */
module Text {

  /** `s.startswith(p)` */
  predicate StartsWith(s: string, p: string) {
    |p| <= |s| && s[..|p|] == p
  }

  /** `p in s`: p occurs in s as a contiguous substring. */
  predicate Occurs(p: string, s: string)
    decreases |s|
  {
    StartsWith(s, p) || (|s| > 0 && Occurs(p, s[1..]))
  }

  /** `s.replace(pat, rep)` for a non-empty pattern: every non-overlapping
      occurrence, found from the left, is replaced. */
  function Replace(s: string, pat: string, rep: string): string
    requires |pat| > 0
    decreases |s|
  {
    if StartsWith(s, pat) then rep + Replace(s[|pat|..], pat, rep)
    else if s == [] then []
    else [s[0]] + Replace(s[1..], pat, rep)
  }

  /** `s.split(sep)` for a non-empty separator. The first piece is always a
      prefix of `s`. */
  function Split(s: string, sep: string): (parts: seq<string>)
    requires |sep| > 0
    ensures |parts| >= 1
    ensures StartsWith(s, parts[0])
    decreases |s|
  {
    if StartsWith(s, sep) then [""] + Split(s[|sep|..], sep)
    else if s == [] then [""]
    else
      var rest := Split(s[1..], sep);
      assert s == [s[0]] + s[1..];
      [[s[0]] + rest[0]] + rest[1..]
  }

  /** `sep.join(parts)` */
  function Join(parts: seq<string>, sep: string): string {
    if |parts| == 0 then ""
    else if |parts| == 1 then parts[0]
    else parts[0] + sep + Join(parts[1..], sep)
  }

  lemma PrefixStartsWith(s: string, prefix: string, p: string)
    requires StartsWith(s, prefix) && StartsWith(prefix, p)
    ensures StartsWith(s, p)
  {
    assert s[..|p|] == s[..|prefix|][..|p|];
  }

  /** Prepending a character to the first piece prepends it to the joined string. */
  lemma JoinConsHead(c: char, parts: seq<string>, sep: string)
    requires |parts| >= 1
    ensures Join([[c] + parts[0]] + parts[1..], sep) == [c] + Join(parts, sep)
  {
    var q := [[c] + parts[0]] + parts[1..];
    if |parts| > 1 {
      assert q[1..] == parts[1..];
    }
  }

  /** Splitting and joining back with the same separator gives the string back. */
  lemma {:induction false} JoinSplit(s: string, sep: string)
    requires |sep| > 0
    ensures Join(Split(s, sep), sep) == s
    decreases |s|
  {
    if StartsWith(s, sep) {
      JoinSplit(s[|sep|..], sep);
      JoinSplitAtSeparator(s, sep);
    } else if s != [] {
      JoinSplit(s[1..], sep);
      JoinSplitAtChar(s, sep);
    }
  }

  /** The step of JoinSplit where `s` begins with the separator. */
  lemma JoinSplitAtSeparator(s: string, sep: string)
    requires |sep| > 0 && StartsWith(s, sep)
    requires Join(Split(s[|sep|..], sep), sep) == s[|sep|..]
    ensures Join(Split(s, sep), sep) == s
  {
    var tail := s[|sep|..];
    var rest := Split(tail, sep);
    var parts := [""] + rest;
    assert Split(s, sep) == parts;
    assert |parts| > 1 && parts[0] == "" && parts[1..] == rest;
    assert "" + sep == sep;
    assert Join(parts, sep) == sep + tail;
    PrefixAndRest(s, sep);
  }

  lemma PrefixAndRest(s: string, p: string)
    requires StartsWith(s, p)
    ensures s == p + s[|p|..]
  {
    assert s == s[..|p|] + s[|p|..];
  }

  /** The step of JoinSplit where `s` begins with a character that does not
      start a separator. */
  lemma JoinSplitAtChar(s: string, sep: string)
    requires |sep| > 0 && !StartsWith(s, sep) && s != []
    requires Join(Split(s[1..], sep), sep) == s[1..]
    ensures Join(Split(s, sep), sep) == s
  {
    var tail := s[1..];
    var rest := Split(tail, sep);
    assert Split(s, sep) == [[s[0]] + rest[0]] + rest[1..];
    JoinConsHead(s[0], rest, sep);
    assert s == [s[0]] + tail;
  }

  /** Python's `replace` is `rep.join(s.split(pat))`. */
  lemma {:induction false} ReplaceViaSplit(s: string, pat: string, rep: string)
    requires |pat| > 0
    ensures Replace(s, pat, rep) == Join(Split(s, pat), rep)
    decreases |s|
  {
    if StartsWith(s, pat) {
      var tail := s[|pat|..];
      var rest := Split(tail, pat);
      ReplaceViaSplit(tail, pat, rep);
      assert Split(s, pat) == [""] + rest;
      assert ([""] + rest)[1..] == rest;
      assert Join([""] + rest, rep) == "" + rep + Join(rest, rep);
      assert Replace(s, pat, rep) == rep + Replace(tail, pat, rep);
    } else if s == [] {
    } else {
      var tail := s[1..];
      var rest := Split(tail, pat);
      ReplaceViaSplit(tail, pat, rep);
      assert Split(s, pat) == [[s[0]] + rest[0]] + rest[1..];
      assert Replace(s, pat, rep) == [s[0]] + Replace(tail, pat, rep);
      JoinConsHead(s[0], rest, rep);
    }
  }

  /** Replacing a pattern by itself changes nothing. */
  lemma ReplaceBySelf(s: string, pat: string)
    requires |pat| > 0
    ensures Replace(s, pat, pat) == s
  {
    ReplaceViaSplit(s, pat, pat);
    JoinSplit(s, pat);
  }

  /** `s.split(sep)` has a single piece exactly when `sep` does not occur in `s`. */
  lemma {:induction false} SplitSingleIffAbsent(s: string, sep: string)
    requires |sep| > 0
    ensures |Split(s, sep)| == 1 <==> !Occurs(sep, s)
    decreases |s|
  {
    if StartsWith(s, sep) {
    } else if s == [] {
    } else {
      SplitSingleIffAbsent(s[1..], sep);
    }
  }

  /** No piece of `s.split(sep)` contains `sep`. */
  lemma {:induction false} SplitPiecesFree(s: string, sep: string)
    requires |sep| > 0
    ensures forall i :: 0 <= i < |Split(s, sep)| ==> !Occurs(sep, Split(s, sep)[i])
    decreases |s|
  {
    var parts := Split(s, sep);
    assert !Occurs(sep, "");
    if StartsWith(s, sep) {
      var rest := Split(s[|sep|..], sep);
      SplitPiecesFree(s[|sep|..], sep);
      assert forall i :: 1 <= i < |parts| ==> parts[i] == rest[i - 1];
    } else if s == [] {
    } else {
      var rest := Split(s[1..], sep);
      SplitPiecesFree(s[1..], sep);
      var first := [s[0]] + rest[0];
      assert first[1..] == rest[0];
      assert StartsWith(s, first);
      if StartsWith(first, sep) {
        PrefixStartsWith(s, first, sep);
      }
      assert forall i :: 1 <= i < |parts| ==> parts[i] == rest[i];
    }
  }

  /** When `sep` occurs in `s`, `s` begins with the first piece, the separator
      and the second piece: `s.split(sep)[1]` is the text after the first
      separator up to the next one (or the end). */
  lemma {:induction false} SplitSecondPiece(s: string, sep: string)
    requires |sep| > 0 && Occurs(sep, s)
    ensures |Split(s, sep)| >= 2
    ensures StartsWith(s, Split(s, sep)[0] + sep + Split(s, sep)[1])
    decreases |s|
  {
    SplitSingleIffAbsent(s, sep);
    var parts := Split(s, sep);
    if StartsWith(s, sep) {
      var tail := s[|sep|..];
      var rest := Split(tail, sep);
      assert parts == [""] + rest;
      PrefixAndRest(s, sep);
      assert "" + sep + rest[0] == sep + rest[0];
      StartsWithAppend(sep, tail, rest[0]);
    } else {
      assert s != [];
      var tail := s[1..];
      var rest := Split(tail, sep);
      SplitSecondPiece(tail, sep);
      assert parts == [[s[0]] + rest[0]] + rest[1..];
      assert s == [s[0]] + tail;
      assert parts[0] + sep + parts[1] == [s[0]] + (rest[0] + sep + rest[1]);
      StartsWithAppend([s[0]], tail, rest[0] + sep + rest[1]);
    }
  }

  /** `s.split(sep)` is its first piece followed by the split of what comes
      after the first separator; with one piece, that piece is all of `s`. */
  lemma {:induction false} SplitHead(s: string, sep: string)
    requires |sep| > 0
    ensures var parts := Split(s, sep);
      if |parts| == 1 then s == parts[0]
      else StartsWith(s, parts[0] + sep) && parts[1..] == Split(s[|parts[0] + sep|..], sep)
    decreases |s|
  {
    if StartsWith(s, sep) {
      var parts := Split(s, sep);
      assert parts == [""] + Split(s[|sep|..], sep);
      assert parts[0] + sep == sep;
    } else if s != [] {
      var tail := s[1..];
      var rest := Split(tail, sep);
      SplitHead(tail, sep);
      assert Split(s, sep) == [[s[0]] + rest[0]] + rest[1..];
      if |rest| == 1 {
        SplitHeadLast(s, sep, rest);
      } else {
        SplitHeadStep(s, sep, rest, Split(s, sep));
      }
    }
  }

  lemma SplitHeadLast(s: string, sep: string, rest: seq<string>)
    requires |sep| > 0 && s != [] && rest == [s[1..]]
    requires Split(s, sep) == [[s[0]] + rest[0]] + rest[1..]
    ensures Split(s, sep) == [s]
  {
    assert s == [s[0]] + s[1..];
  }

  /** The step of SplitHead where `s` does not begin with the separator and
      its tail holds one: the first piece grows by the first character. */
  lemma SplitHeadStep(s: string, sep: string, rest: seq<string>, parts: seq<string>)
    requires s != [] && |rest| > 1 && StartsWith(s[1..], rest[0] + sep)
    requires parts == [[s[0]] + rest[0]] + rest[1..]
    ensures StartsWith(s, parts[0] + sep) && parts[1..] == rest[1..]
    ensures s[|parts[0] + sep|..] == s[1..][|rest[0] + sep|..]
  {
    assert parts[0] + sep == [s[0]] + (rest[0] + sep);
    assert s == [s[0]] + s[1..];
    StartsWithAppend([s[0]], s[1..], rest[0] + sep);
  }

  /** The second piece of `s.split(sep)` runs up to the next separator or to
      the end of `s`. */
  lemma SplitSecondPieceEnd(s: string, sep: string)
    requires |sep| > 0 && |Split(s, sep)| >= 2
    ensures var parts := Split(s, sep);
      s == parts[0] + sep + parts[1] || StartsWith(s, parts[0] + sep + parts[1] + sep)
  {
    var parts := Split(s, sep);
    SplitHead(s, sep);
    var head := parts[0] + sep;
    var t := s[|head|..];
    PrefixAndRest(s, head);
    SplitHead(t, sep);
    assert Split(t, sep)[0] == parts[1];
    PieceThenEnd(s, head, t, parts[1], sep);
  }

  lemma PieceThenEnd(s: string, head: string, t: string, piece: string, sep: string)
    requires s == head + t
    requires t == piece || StartsWith(t, piece + sep)
    ensures s == head + piece || StartsWith(s, head + piece + sep)
  {
    if t != piece {
      StartsWithAppend(head, t, piece + sep);
      assert head + (piece + sep) == head + piece + sep;
    }
  }

  lemma StartsWithAppend(a: string, t: string, p: string)
    requires StartsWith(t, p)
    ensures StartsWith(a + t, a + p)
  {
    assert (a + t)[..|a + p|] == a + t[..|p|];
  }

  /** The characters for which Python's `str.isspace()` holds, which are the
      characters `str.strip()` removes. */
  predicate IsSpace(c: char) {
    c == ' ' || ('\t' <= c <= '\r') || ('\U{1C}' <= c <= '\U{1F}')
    || c == '\U{85}' || c == '\U{A0}' || c == '\U{1680}'
    || ('\U{2000}' <= c <= '\U{200A}') || c == '\U{2028}' || c == '\U{2029}'
    || c == '\U{202F}' || c == '\U{205F}' || c == '\U{3000}'
  }

  predicate AllSpace(s: string) {
    forall i :: 0 <= i < |s| ==> IsSpace(s[i])
  }

  lemma AllSpaceAppend(a: string, b: string)
    requires AllSpace(a) && AllSpace(b)
    ensures AllSpace(a + b)
  {
    forall i | 0 <= i < |a + b|
      ensures IsSpace((a + b)[i])
    {
      if i < |a| {
        assert (a + b)[i] == a[i];
      } else {
        assert (a + b)[i] == b[i - |a|];
      }
    }
  }

  /** `s.lstrip()`: a suffix of `s` after a run of whitespace. */
  function LStrip(s: string): (r: string)
    ensures |r| <= |s| && r == s[|s| - |r|..]
    ensures AllSpace(s[..|s| - |r|])
    ensures r == [] || !IsSpace(r[0])
    decreases |s|
  {
    if |s| > 0 && IsSpace(s[0]) then
      var t := s[1..];
      var r := LStrip(t);
      assert t[|t| - |r|..] == s[|s| - |r|..];
      assert s[..|s| - |r|] == [s[0]] + t[..|t| - |r|];
      AllSpaceAppend([s[0]], t[..|t| - |r|]);
      r
    else s
  }

  /** `s.rstrip()`: a prefix of `s` before a run of whitespace. */
  function RStrip(s: string): (r: string)
    ensures |r| <= |s| && r == s[..|r|]
    ensures AllSpace(s[|r|..])
    ensures r == [] || !IsSpace(r[|r| - 1])
    decreases |s|
  {
    if |s| > 0 && IsSpace(s[|s| - 1]) then
      var t := s[..|s| - 1];
      var r := RStrip(t);
      assert t[..|r|] == s[..|r|];
      assert s[|r|..] == t[|r|..] + [s[|s| - 1]];
      AllSpaceAppend(t[|r|..], [s[|s| - 1]]);
      r
    else s
  }

  /** `s` is `r` surrounded by whitespace. */
  ghost predicate StrippedFrom(r: string, s: string) {
    exists i :: 0 <= i <= |s| - |r| && AllSpace(s[..i]) && s[i..i + |r|] == r && AllSpace(s[i + |r|..])
  }

  /** `r` is `s` without its leading and trailing whitespace: it neither
      begins nor ends with whitespace and `s` is `r` surrounded by whitespace. */
  ghost predicate IsStripOf(r: string, s: string) {
    (r == [] || (!IsSpace(r[0]) && !IsSpace(r[|r| - 1]))) && StrippedFrom(r, s)
  }

  /** `s.strip()`: `s` without its leading and trailing whitespace. Its
      postcondition determines the result. */
  function Strip(s: string): (r: string)
    ensures IsStripOf(r, s)
  {
    StripEdges(s);
    StripSurround(s);
    RStrip(LStrip(s))
  }

  lemma StripEdges(s: string)
    ensures var r := RStrip(LStrip(s)); r == [] || (!IsSpace(r[0]) && !IsSpace(r[|r| - 1]))
  {
    var l := LStrip(s);
    var r := RStrip(l);
    assert r == [] || r[0] == l[0];
  }

  lemma StripSurround(s: string)
    ensures StrippedFrom(RStrip(LStrip(s)), s)
  {
    var l := LStrip(s);
    var r := RStrip(l);
    var i := |s| - |l|;
    assert s[i..i + |r|] == r;
    assert s[i + |r|..] == l[|r|..];
    StrippedFromParts(r, s, i);
  }

  lemma StrippedFromParts(r: string, s: string, i: nat)
    requires i + |r| <= |s| && AllSpace(s[..i]) && s[i..i + |r|] == r && AllSpace(s[i + |r|..])
    ensures StrippedFrom(r, s)
  {
  }

  /** Stripping twice is stripping once. */
  lemma StripIdempotent(s: string)
    ensures Strip(Strip(s)) == Strip(s)
  {
    var r := Strip(s);
    assert LStrip(r) == r;
    assert RStrip(r) == r;
  }

  function DigitChar(d: nat): char
    requires d < 10
  {
    "0123456789"[d]
  }

  function DigitValue(c: char): nat {
    if '0' <= c <= '9' then (c as int - '0' as int) as nat else 0
  }

  /** `str(n)` for a non-negative integer: its decimal digits. */
  function NatToString(n: nat): (r: string)
    ensures |r| >= 1 && '0' <= r[0] <= '9'
    ensures forall i :: 0 <= i < |r| ==> '0' <= r[i] <= '9'
  {
    if n < 10 then [DigitChar(n)] else NatToString(n / 10) + [DigitChar(n % 10)]
  }

  /** `str(i)` for an integer. */
  function IntToString(i: int): string {
    if i < 0 then "-" + NatToString(-i) else NatToString(i)
  }

  /** The number a string of decimal digits denotes (what `int(s)` reads). */
  function DigitsValue(s: string): nat {
    if s == [] then 0 else DigitsValue(s[..|s| - 1]) * 10 + DigitValue(s[|s| - 1])
  }

  /** Reading back the decimal digits of `n` gives `n`. */
  lemma {:induction false} NatToStringRoundTrip(n: nat)
    ensures DigitsValue(NatToString(n)) == n
  {
    if n >= 10 {
      var p := NatToString(n / 10);
      NatToStringRoundTrip(n / 10);
      assert (p + [DigitChar(n % 10)])[..|p|] == p;
    }
  }

  /** What `int(s)` reads from an optional minus sign and decimal digits. */
  function ReadInt(s: string): int {
    if |s| > 0 && s[0] == '-' then -(DigitsValue(s[1..]) as int) else DigitsValue(s)
  }

  /** Reading back `str(i)` gives `i`. */
  lemma IntToStringRoundTrip(i: int)
    ensures ReadInt(IntToString(i)) == i
  {
    if i < 0 {
      var digits := NatToString(-i);
      assert ("-" + digits)[1..] == digits;
      NatToStringRoundTrip(-i);
    } else {
      NatToStringRoundTrip(i);
    }
  }

  /** Distinct integers have distinct `str()` forms, so comparing `str(year)`
      against a list of strings compares the year itself. */
  lemma IntToStringInjective(a: int, b: int)
    requires IntToString(a) == IntToString(b)
    ensures a == b
  {
    IntToStringRoundTrip(a);
    IntToStringRoundTrip(b);
  }
}
