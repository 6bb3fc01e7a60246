/** Character classes, searching, filtering and splitting on strings. */
module Text {
  import opened Optional

  /** The characters of the `\s` class of an ECMAScript regular expression:
      the white space and line terminator code points. */
  predicate IsSpace(c: char) {
    var n := c as int;
    (9 <= n <= 13) || n == 0x20 || n == 0xA0 || n == 0x1680 || (0x2000 <= n <= 0x200A)
    || n == 0x2028 || n == 0x2029 || n == 0x202F || n == 0x205F || n == 0x3000 || n == 0xFEFF
  }

  function Lower(c: char): char {
    if 'A' <= c <= 'Z' then (c as int + 32) as char else c
  }

  function Upper(c: char): char {
    if 'a' <= c <= 'z' then (c as int - 32) as char else c
  }

  /** ASCII upper-casing, character by character. */
  function UpperCase(s: string): (r: string)
    ensures |r| == |s|
    ensures forall i :: 0 <= i < |s| ==> r[i] == Upper(s[i])
  {
    seq(|s|, i requires 0 <= i < |s| => Upper(s[i]))
  }

  /** Equality ignoring ASCII case, as a case-insensitive regular expression
      compares literal characters. */
  predicate CaseEq(a: string, b: string) {
    |a| == |b| && forall i :: 0 <= i < |a| ==> Lower(a[i]) == Lower(b[i])
  }

  predicate StartsWith(s: string, prefix: string) {
    |prefix| <= |s| && s[..|prefix|] == prefix
  }

  predicate EndsWith(s: string, suffix: string) {
    |suffix| <= |s| && s[|s| - |suffix|..] == suffix
  }

  /** The least index at or after `from` whose character satisfies `p`. */
  function Find(s: string, from: nat, p: char -> bool): (r: Option<nat>)
    requires from <= |s|
    ensures r.Some? ==> from <= r.value < |s| && p(s[r.value])
    ensures r.Some? ==> forall j :: from <= j < r.value ==> !p(s[j])
    ensures r.None? ==> forall j :: from <= j < |s| ==> !p(s[j])
    decreases |s| - from
  {
    if from == |s| then None
    else if p(s[from]) then Some(from)
    else Find(s, from + 1, p)
  }

  /** The least index at or after `from` holding `c` (the source's `indexOf`). */
  function IndexOf(s: string, c: char, from: nat): (r: Option<nat>)
    requires from <= |s|
    ensures r.Some? ==> from <= r.value < |s| && s[r.value] == c
    ensures r.Some? ==> forall j :: from <= j < r.value ==> s[j] != c
    ensures r.None? ==> forall j :: from <= j < |s| ==> s[j] != c
  {
    Find(s, from, x => x == c)
  }

  /** The characters of `s` that satisfy `keep`, in order (a global
      `replace` of a character class by the empty string). */
  function Filter(s: string, keep: char -> bool): (r: string)
    ensures |r| <= |s|
    ensures forall i :: 0 <= i < |r| ==> keep(r[i])
    ensures (forall i :: 0 <= i < |s| ==> keep(s[i])) ==> r == s
  {
    if s == [] then []
    else (if keep(s[0]) then [s[0]] else []) + Filter(s[1..], keep)
  }

  /** Filtering works piece by piece: together with the one-character case of
      the definition this pins down exactly which characters survive. */
  lemma {:induction false} FilterConcat(a: string, b: string, keep: char -> bool)
    ensures Filter(a + b, keep) == Filter(a, keep) + Filter(b, keep)
    decreases |a|
  {
    if a == [] {
      assert a + b == b;
    } else {
      assert (a + b)[1..] == a[1..] + b;
      FilterConcat(a[1..], b, keep);
    }
  }

  /** The source's `replace(/[\s"]/g, "")`. */
  function Trim(s: string): string {
    Filter(s, c => !IsSpace(c) && c != '"')
  }

  /** The source's `replace(/["]/g, "")`. */
  function StripQuotes(s: string): string {
    Filter(s, c => c != '"')
  }

  /** The pieces of `s` between occurrences of `sep` (the source's `split`
      with a one-character string separator). */
  function Split(s: string, sep: char): (parts: seq<string>)
    ensures |parts| >= 1
    ensures forall i :: 0 <= i < |parts| ==> sep !in parts[i]
    decreases |s|
  {
    match IndexOf(s, sep, 0)
    case None => [s]
    case Some(k) => [s[..k]] + Split(s[k + 1..], sep)
  }

  function Join(parts: seq<string>, sep: char): string {
    if |parts| == 0 then ""
    else if |parts| == 1 then parts[0]
    else parts[0] + [sep] + Join(parts[1..], sep)
  }

  /** Joining the pieces back with the separator gives the original string. */
  lemma {:induction false} JoinSplit(s: string, sep: char)
    ensures Join(Split(s, sep), sep) == s
    decreases |s|
  {
    match IndexOf(s, sep, 0)
    case None =>
    case Some(k) =>
      var rest := s[k + 1..];
      JoinSplit(rest, sep);
      var tail := Split(rest, sep);
      assert Split(s, sep) == [s[..k]] + tail;
      assert ([s[..k]] + tail)[1..] == tail;
      assert s == s[..k] + [sep] + rest;
  }

  /** `tok` occupies `s[i..i + |tok|]` with a separator or an end of `s` on
      either side: a comma-delimited member of the list `s`. */
  ghost predicate DelimitedAt(s: string, tok: string, i: int, sep: char) {
    && 0 <= i && i + |tok| <= |s|
    && s[i..i + |tok|] == tok
    && (i == 0 || s[i - 1] == sep)
    && (i + |tok| == |s| || s[i + |tok|] == sep)
  }

  /** Delimited occurrences in the text after a separator at `k` are the
      delimited occurrences of the whole string that start after `k`. */
  lemma DelimitedShift(s: string, tok: string, k: nat, j: nat, sep: char)
    requires k < |s| && s[k] == sep
    ensures DelimitedAt(s[k + 1..], tok, j, sep) <==> DelimitedAt(s, tok, k + 1 + j, sep)
  {
    var rest := s[k + 1..];
    if j + |tok| <= |rest| {
      assert s[k + 1 + j..k + 1 + j + |tok|] == rest[j..j + |tok|];
    }
  }

  /** A delimited occurrence that starts at or before the first separator `k`
      is the piece `s[..k]` itself. */
  lemma DelimitedBeforeFirst(s: string, tok: string, k: nat, i: int, sep: char)
    requires sep !in tok
    requires k < |s| && s[k] == sep && forall j :: 0 <= j < k ==> s[j] != sep
    requires DelimitedAt(s, tok, i, sep) && i <= k
    ensures i == 0 && tok == s[..k]
  {
  }

  /** In a string with no separator the only delimited token is the string. */
  lemma DelimitedWithoutSeparator(s: string, tok: string, i: int, sep: char)
    requires forall j :: 0 <= j < |s| ==> s[j] != sep
    requires DelimitedAt(s, tok, i, sep)
    ensures tok == s
  {
    assert i == 0;
    assert |tok| == |s|;
    assert tok == s[0..|s|];
  }

  /** A separator-free token is one of the split pieces exactly when it
      occurs delimited in the string. */
  lemma {:induction false} InSplitIff(s: string, tok: string, sep: char)
    requires sep !in tok
    ensures tok in Split(s, sep) <==> exists i :: DelimitedAt(s, tok, i, sep)
    decreases |s|
  {
    match IndexOf(s, sep, 0)
    case None =>
      InSplitWithoutSeparator(s, tok, sep);
    case Some(k) =>
      var rest := s[k + 1..];
      InSplitIff(rest, tok, sep);
      InSplitStepMember(s, rest, tok, k, sep);
      InSplitStepDelimited(s, rest, tok, k, sep);
  }

  lemma InSplitWithoutSeparator(s: string, tok: string, sep: char)
    requires IndexOf(s, sep, 0).None?
    ensures tok in Split(s, sep) <==> exists i :: DelimitedAt(s, tok, i, sep)
  {
    assert Split(s, sep) == [s];
    if tok == s {
      assert DelimitedAt(s, tok, 0, sep);
    }
    if exists i :: DelimitedAt(s, tok, i, sep) {
      var i :| DelimitedAt(s, tok, i, sep);
      DelimitedWithoutSeparator(s, tok, i, sep);
    }
  }

  /** A piece of the split is delimited in the string, given that this holds
      for the text after the first separator `k`. */
  lemma InSplitStepMember(s: string, rest: string, tok: string, k: nat, sep: char)
    requires IndexOf(s, sep, 0) == Some(k) && rest == s[k + 1..]
    requires tok in Split(rest, sep) ==> exists j :: DelimitedAt(rest, tok, j, sep)
    ensures tok in Split(s, sep) ==> exists i :: DelimitedAt(s, tok, i, sep)
  {
    SplitFirst(s, rest, k, sep);
    if tok == s[..k] {
      assert DelimitedAt(s, tok, 0, sep);
    } else if tok in Split(rest, sep) {
      var j :| DelimitedAt(rest, tok, j, sep);
      DelimitedShift(s, tok, k, j, sep);
    }
  }

  /** A delimited occurrence in the string is a piece of the split, given
      that this holds for the text after the first separator `k`. */
  lemma InSplitStepDelimited(s: string, rest: string, tok: string, k: nat, sep: char)
    requires sep !in tok
    requires IndexOf(s, sep, 0) == Some(k) && rest == s[k + 1..]
    requires (exists j :: DelimitedAt(rest, tok, j, sep)) ==> tok in Split(rest, sep)
    ensures (exists i :: DelimitedAt(s, tok, i, sep)) ==> tok in Split(s, sep)
  {
    if exists i :: DelimitedAt(s, tok, i, sep) {
      var i :| DelimitedAt(s, tok, i, sep);
      if i <= k {
        DelimitedInFirstPiece(s, rest, tok, k, i, sep);
      } else {
        DelimitedInRest(s, rest, tok, k, i, sep);
      }
    }
  }

  lemma DelimitedInFirstPiece(s: string, rest: string, tok: string, k: nat, i: int, sep: char)
    requires sep !in tok
    requires IndexOf(s, sep, 0) == Some(k) && rest == s[k + 1..]
    requires DelimitedAt(s, tok, i, sep) && i <= k
    ensures tok in Split(s, sep)
  {
    DelimitedBeforeFirst(s, tok, k, i, sep);
    SplitFirst(s, rest, k, sep);
  }

  lemma DelimitedInRest(s: string, rest: string, tok: string, k: nat, i: int, sep: char)
    requires IndexOf(s, sep, 0) == Some(k) && rest == s[k + 1..]
    requires (exists j :: DelimitedAt(rest, tok, j, sep)) ==> tok in Split(rest, sep)
    requires DelimitedAt(s, tok, i, sep) && i > k
    ensures tok in Split(s, sep)
  {
    DelimitedShift(s, tok, k, i - (k + 1), sep);
    assert DelimitedAt(rest, tok, i - (k + 1), sep);
    SplitFirst(s, rest, k, sep);
  }

  /** The split of `s` is its text up to the first separator `k`, followed
      by the split of the rest. */
  lemma SplitFirst(s: string, rest: string, k: nat, sep: char)
    requires IndexOf(s, sep, 0) == Some(k) && rest == s[k + 1..]
    ensures Split(s, sep) == [s[..k]] + Split(rest, sep)
    ensures forall t :: t in Split(s, sep) <==> t == s[..k] || t in Split(rest, sep)
  {
  }
}
