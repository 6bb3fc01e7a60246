/** The tolerant challenge-field extractor: the regular expression
    `field=("[^"]*"|[^,]*)`, case-insensitive, written as an explicit scan. */
module FieldParser {
  import opened Optional
  import opened Text

  /** `field=` occurs at position `p` of `raw`, the name compared ignoring case. */
  predicate FieldAt(raw: string, field: string, p: nat) {
    && p + |field| < |raw|
    && CaseEq(raw[p..p + |field|], field)
    && raw[p + |field|] == '='
  }

  /** `p` is the leftmost occurrence of `field=`: where the regular expression
      search starts its match. */
  ghost predicate Leftmost(raw: string, field: string, p: nat) {
    FieldAt(raw, field, p) && forall p' :: 0 <= p' < p ==> !FieldAt(raw, field, p')
  }

  /** The first alternative `"[^"]*"` matches `cap` at `q`. */
  ghost predicate QuotedAlt(raw: string, q: nat, cap: string) {
    && 2 <= |cap| && q + |cap| <= |raw|
    && raw[q..q + |cap|] == cap
    && cap[0] == '"' && cap[|cap| - 1] == '"'
    && forall i :: 0 < i < |cap| - 1 ==> cap[i] != '"'
  }

  /** The second alternative `[^,]*` matches `cap` at `q`, greedily. */
  ghost predicate UnquotedAlt(raw: string, q: nat, cap: string) {
    && q + |cap| <= |raw|
    && raw[q..q + |cap|] == cap
    && (forall i :: 0 <= i < |cap| ==> cap[i] != ',')
    && (q + |cap| == |raw| || raw[q + |cap|] == ',')
  }

  /** The capture group of the alternation at `q`: the quoted alternative when
      it matches, the comma-free run otherwise (an opening quote without a
      closing one falls through to the second alternative). */
  ghost predicate RegexCapture(raw: string, q: nat, cap: string) {
    QuotedAlt(raw, q, cap) || ((forall c :: !QuotedAlt(raw, q, c)) && UnquotedAlt(raw, q, cap))
  }

  /** The leftmost `field=` at or after `from`. */
  function FindField(raw: string, field: string, from: nat): (r: Option<nat>)
    requires from <= |raw|
    ensures r.Some? ==> from <= r.value && FieldAt(raw, field, r.value)
    ensures r.Some? ==> forall p :: from <= p < r.value ==> !FieldAt(raw, field, p)
    ensures r.None? ==> forall p :: from <= p ==> !FieldAt(raw, field, p)
    decreases |raw| - from
  {
    if from == |raw| then None
    else if FieldAt(raw, field, from) then Some(from)
    else FindField(raw, field, from + 1)
  }

  /** The capture of the value alternation starting at `q`. */
  function Capture(raw: string, q: nat): (cap: string)
    requires q <= |raw|
    ensures RegexCapture(raw, q, cap)
  {
    var close := if q < |raw| && raw[q] == '"' then IndexOf(raw, '"', q + 1) else None;
    if close.Some? then
      var cap := raw[q..close.value + 1];
      assert forall i :: 0 < i < |cap| - 1 ==> cap[i] == raw[q + i];
      cap
    else
      var e := IndexOf(raw, ',', q);
      var end := if e.Some? then e.value else |raw|;
      var cap := raw[q..end];
      assert forall c :: !QuotedAlt(raw, q, c);
      cap
  }

  /** A quoted capture ends at the first quote after the opening one. */
  lemma QuotedEnd(raw: string, q: nat, cap: string)
    requires QuotedAlt(raw, q, cap)
    ensures IndexOf(raw, '"', q + 1) == Some(q + |cap| - 1)
  {
    var k := q + |cap| - 1;
    assert raw[k] == cap[|cap| - 1];
    assert forall j :: q + 1 <= j < k ==> raw[j] == cap[j - q];
  }

  /** An unquoted capture ends at the first comma, or at the end of `raw`. */
  lemma UnquotedEnd(raw: string, q: nat, cap: string)
    requires UnquotedAlt(raw, q, cap)
    ensures q + |cap| == IndexOf(raw, ',', q).GetOr(|raw|)
  {
    assert forall j :: q <= j < q + |cap| ==> raw[j] == cap[j - q];
  }

  /** The alternation captures at most one string at a given position. */
  lemma CaptureUnique(raw: string, q: nat, c1: string, c2: string)
    requires RegexCapture(raw, q, c1) && RegexCapture(raw, q, c2)
    ensures c1 == c2
  {
    if QuotedAlt(raw, q, c1) {
      QuotedEnd(raw, q, c1);
      QuotedEnd(raw, q, c2);
    } else {
      UnquotedEnd(raw, q, c1);
      UnquotedEnd(raw, q, c2);
    }
  }

  /** The search from the start finds the leftmost occurrence. */
  lemma FindLeftmost(raw: string, field: string, p: nat)
    requires Leftmost(raw, field, p)
    ensures FindField(raw, field, 0) == Some(p)
  {
  }

  /** The source's `parse(raw, field, trim)`: the capture at the leftmost
      `field=`, with every white-space and quote character removed when
      `trim` is set, or `None` when `field=` does not occur. */
  function Parse(raw: string, field: string, trim: bool): (r: Option<string>)
    ensures r.None? <==> forall p :: !FieldAt(raw, field, p)
    ensures r.Some? && trim ==> forall i :: 0 <= i < |r.value| ==> !IsSpace(r.value[i]) && r.value[i] != '"'
  {
    match FindField(raw, field, 0)
    case None => None
    case Some(p) =>
      var cap := Capture(raw, p + |field| + 1);
      Some(if trim then Trim(cap) else cap)
  }

  /** At the leftmost `field=`, `Parse` returns the scanned capture after it. */
  lemma ParseAtLeftmost(raw: string, field: string, p: nat)
    requires Leftmost(raw, field, p)
    ensures p + |field| + 1 <= |raw|
    ensures Parse(raw, field, false) == Some(Capture(raw, p + |field| + 1))
    ensures Parse(raw, field, true) == Some(Trim(Capture(raw, p + |field| + 1)))
  {
    FindLeftmost(raw, field, p);
    assert FindField(raw, field, 0) == Some(p);
    var cap := Capture(raw, p + |field| + 1);
    assert Parse(raw, field, false) == Some(cap);
    assert Parse(raw, field, true) == Some(Trim(cap));
  }

  /** `Parse` is the regular expression: given the leftmost `field=` at `p`,
      the untrimmed result is exactly the alternation's capture after it, and
      the trimmed result is that capture trimmed. */
  lemma ParseIsRegexMatch(raw: string, field: string, p: nat, cap: string)
    requires Leftmost(raw, field, p)
    ensures Parse(raw, field, false) == Some(cap) <==> RegexCapture(raw, p + |field| + 1, cap)
    ensures Parse(raw, field, false) == Some(cap) ==> Parse(raw, field, true) == Some(Trim(cap))
  {
    var q := p + |field| + 1;
    ParseAtLeftmost(raw, field, p);
    if RegexCapture(raw, q, cap) {
      CaptureUnique(raw, q, cap, Capture(raw, q));
    }
  }
}
