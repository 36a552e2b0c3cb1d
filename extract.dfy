/**
 * The metadata extractors of `LLMSParser`: `_extract_date`, `_extract_url`,
 * `_extract_subcategory`, the category keywords of a `## ` heading, and the
 * two small patterns a bullet line is read with. Each regular expression of
 * the source is written out as the leftmost-match search it performs.
 */
module Extract {
  import opened Wrappers
  import opened Text
  import opened Blog

  /* ---------- ordered keyword tables ---------- */

  /**
   * Index of the first entry of `table` whose keyword occurs in `text`:
   * the first-match-wins walk over a dict in insertion order.
   */
  function FirstMatch<V>(table: seq<(string, V)>, text: string): (r: Option<nat>)
    ensures r.Some? ==> r.value < |table| && Contains(text, table[r.value].0)
    ensures forall j :: 0 <= j < |table| && (r.None? || j < r.value) ==> !Contains(text, table[j].0)
  {
    if table == [] then None
    else if Contains(text, table[0].0) then Some(0)
    else match FirstMatch(table[1..], text)
      case None => None
      case Some(i) => Some(i + 1)
  }

  /** The keywords a `## ` heading is matched against, case-sensitively, in order. */
  const CategoryTable: seq<(string, Category)> := [
    ("Documentation", Documentation),
    ("Tech Blog", TechBlog),
    ("Reflection", Reflections),
    ("Thoughts", Reflections),
    ("Trends", Trends)
  ]

  /** The category a `## ` heading opens; `None` for any other heading. */
  function CategoryOf(heading: string): (r: Option<Category>)
    ensures r.None? <==> forall j :: 0 <= j < |CategoryTable| ==> !Contains(heading, CategoryTable[j].0)
    ensures r.Some? ==> exists j :: (0 <= j < |CategoryTable| && Contains(heading, CategoryTable[j].0)
      && r.value == CategoryTable[j].1
      && forall k :: 0 <= k < j ==> !Contains(heading, CategoryTable[k].0))
  {
    match FirstMatch(CategoryTable, heading)
    case None => None
    case Some(i) => Some(CategoryTable[i].1)
  }

  /** The keyword table of `_extract_subcategory`, in insertion order. */
  const SubcategoryTable: seq<(string, string)> := [
    ("troubleshooting", "troubleshooting"),
    ("performance", "performance"),
    ("optimization", "performance"),
    ("backend", "backend"),
    ("infrastructure", "infrastructure"),
    ("devops", "infrastructure"),
    ("architecture", "architecture"),
    ("design", "architecture"),
    ("culture", "culture"),
    ("reflection", "reflection"),
    ("trends", "trends")
  ]

  /**
   * `_extract_subcategory`: the value of the first keyword that occurs in the
   * lower-cased context, or `None` when no keyword occurs.
   */
  function ExtractSubcategory(context: string): (r: Option<string>)
    ensures r.None? <==> forall j :: 0 <= j < |SubcategoryTable| ==> !Contains(Lower(context), SubcategoryTable[j].0)
    ensures r.Some? ==> exists j :: (0 <= j < |SubcategoryTable| && Contains(Lower(context), SubcategoryTable[j].0)
      && r.value == SubcategoryTable[j].1
      && forall k :: 0 <= k < j ==> !Contains(Lower(context), SubcategoryTable[k].0))
  {
    match FirstMatch(SubcategoryTable, Lower(context))
    case None => None
    case Some(i) => Some(SubcategoryTable[i].1)
  }

  /* ---------- character search ---------- */

  /** The first position at or after `from` holding `c`. */
  function IndexOf(s: string, c: char, from: nat): (r: Option<nat>)
    ensures r.Some? ==> from <= r.value < |s| && s[r.value] == c
    ensures forall k :: from <= k < |s| && (r.None? || k < r.value) ==> s[k] != c
    decreases |s| - from
  {
    if from >= |s| then None
    else if s[from] == c then Some(from)
    else IndexOf(s, c, from + 1)
  }

  /* ---------- _extract_date ---------- */

  predicate IsDigit(c: char) {
    '0' <= c <= '9'
  }

  /** The pattern `\d{4}-\d{2}-\d{2}` matches at position `i`. */
  predicate DatePatternAt(s: string, i: int) {
    && 0 <= i && i + 10 <= |s|
    && IsDigit(s[i]) && IsDigit(s[i + 1]) && IsDigit(s[i + 2]) && IsDigit(s[i + 3])
    && s[i + 4] == '-' && IsDigit(s[i + 5]) && IsDigit(s[i + 6])
    && s[i + 7] == '-' && IsDigit(s[i + 8]) && IsDigit(s[i + 9])
  }

  /** The value of a run of decimal digits. */
  function Number(ds: string): (n: nat)
    requires forall k :: 0 <= k < |ds| ==> IsDigit(ds[k])
  {
    if ds == [] then 0
    else
      assert IsDigit(ds[|ds| - 1]);
      Number(ds[..|ds| - 1]) * 10 + (ds[|ds| - 1] as int - '0' as int)
  }

  /** The fields of the date text at `i`, before any calendar check. */
  function DateAt(s: string, i: int): Date
    requires DatePatternAt(s, i)
  {
    Date(Number(s[i..i + 4]), Number(s[i + 5..i + 7]), Number(s[i + 8..i + 10]))
  }

  /** The leftmost position at or after `from` where a bare date matches. */
  function FirstDate(s: string, from: nat): (r: Option<nat>)
    ensures r.Some? ==> from <= r.value && DatePatternAt(s, r.value)
    ensures forall k :: from <= k && (r.None? || k < r.value) ==> !DatePatternAt(s, k)
    decreases |s| - from
  {
    if from + 10 > |s| then None
    else if DatePatternAt(s, from) then Some(from)
    else FirstDate(s, from + 1)
  }

  /**
   * `Published\s+\d{4}-\d{2}-\d{2}` matches at `p`, with its date at `j`:
   * the word, a non-empty run of white space, then the date pattern.
   */
  predicate PublishedMatchAt(s: string, p: int, j: int) {
    && 0 <= p && p + 9 < j
    && DatePatternAt(s, j)
    && s[p..p + 9] == "Published"
    && (forall k :: p + 9 <= k < j ==> IsSpace(s[k]))
  }

  /** The length of the white space run that starts at `i`. */
  function SpaceRun(s: string, i: nat): (n: nat)
    ensures i + n <= |s| || n == 0
    ensures forall k :: i <= k < i + n ==> IsSpace(s[k])
    ensures i + n < |s| ==> !IsSpace(s[i + n])
    decreases |s| - i
  {
    if i < |s| && IsSpace(s[i]) then 1 + SpaceRun(s, i + 1) else 0
  }

  /**
   * Where the date of the `Published` pattern starts when that pattern
   * matches at `p`. The white space run is greedy and a digit must follow
   * it, so the match, when there is one, is unique.
   */
  function PublishedAt(s: string, p: nat): (r: Option<nat>)
    ensures r.Some? ==> PublishedMatchAt(s, p, r.value)
    ensures r.None? ==> forall j :: !PublishedMatchAt(s, p, j)
  {
    PublishedMatchIsGreedy(s, p);
    if p + 9 <= |s| && s[p..p + 9] == "Published" then
      var gap := SpaceRun(s, p + 9);
      if gap >= 1 && DatePatternAt(s, p + 9 + gap) then Some(p + 9 + gap) else None
    else None
  }

  /**
   * A `Published` match at `p` takes the whole white space run after the
   * word, so its date can only be in one place.
   */
  lemma PublishedMatchIsGreedy(s: string, p: nat)
    ensures forall j :: PublishedMatchAt(s, p, j) ==> j == p + 9 + SpaceRun(s, p + 9)
  {
  }

  /** The position of the leftmost `Published` match at or after `from`. */
  function FirstPublished(s: string, from: nat): (r: Option<nat>)
    ensures r.Some? ==> from <= r.value < |s| && PublishedAt(s, r.value).Some?
    ensures forall p :: from <= p && (r.None? || p < r.value) ==> PublishedAt(s, p).None?
    decreases |s| - from
  {
    if from >= |s| then None
    else if PublishedAt(s, from).Some? then Some(from)
    else FirstPublished(s, from + 1)
  }

  /** The date a match gives, exactly when `strptime` accepts it. */
  function ValidDateAt(s: string, m: Option<nat>): (r: Option<Date>)
    ensures r.Some? ==> ValidDate(r.value) && m.Some? && DatePatternAt(s, m.value) && r.value == DateAt(s, m.value)
    ensures m.Some? && DatePatternAt(s, m.value) && ValidDate(DateAt(s, m.value)) ==> r == Some(DateAt(s, m.value))
  {
    if m.Some? && DatePatternAt(s, m.value) && ValidDate(DateAt(s, m.value)) then Some(DateAt(s, m.value)) else None
  }

  /**
   * `_extract_date`: the `Published` pattern first, then the first bare date;
   * a pattern whose match is not a real calendar date falls through to the
   * next pattern (not to a later match of the same pattern).
   */
  function ExtractDate(text: string): (r: Option<Date>)
    ensures r.Some? ==> ValidDate(r.value)
    ensures r.Some? ==> exists i :: DatePatternAt(text, i) && DateAt(text, i) == r.value
    ensures (forall i :: !DatePatternAt(text, i)) ==> r.None?
    ensures var pub := FirstPublished(text, 0);
      pub.Some? && ValidDate(DateAt(text, PublishedAt(text, pub.value).value)) ==>
        r == Some(DateAt(text, PublishedAt(text, pub.value).value))
    ensures var pub := FirstPublished(text, 0); var bare := FirstDate(text, 0);
      (pub.None? || !ValidDate(DateAt(text, PublishedAt(text, pub.value).value))) ==>
        r == (if bare.Some? && ValidDate(DateAt(text, bare.value)) then Some(DateAt(text, bare.value)) else None)
  {
    var published := match FirstPublished(text, 0) case None => None case Some(p) => PublishedAt(text, p);
    match ValidDateAt(text, published)
    case Some(d) => Some(d)
    case None => ValidDateAt(text, FirstDate(text, 0))
  }

  /* ---------- _extract_url ---------- */

  /**
   * `\[([^\]]+)\]\((/[^)]+)\)` matches at `p`, its `]` at `q` and its closing
   * `)` at `e`: link text without `]`, then `(`, then `/` and at least one
   * more character without `)`.
   */
  predicate LinkMatch(s: string, p: int, q: int, e: int) {
    && 0 <= p && p + 1 < q && q + 3 < e < |s|
    && s[p] == '[' && (forall k :: p < k < q ==> s[k] != ']') && s[q] == ']'
    && s[q + 1] == '(' && s[q + 2] == '/'
    && (forall k :: q + 2 < k < e ==> s[k] != ')') && s[e] == ')'
  }

  /** The path, from `/` up to the closing `)`, of the link that matches at `p`. */
  function LinkAt(s: string, p: nat): (r: Option<string>)
    ensures r.Some? ==> |r.value| >= 2 && r.value[0] == '/' && ')' !in r.value
  {
    if p < |s| && s[p] == '[' then
      match IndexOf(s, ']', p + 1)
      case None => None
      case Some(q) =>
        if q > p + 1 && q + 2 < |s| && s[q + 1] == '(' && s[q + 2] == '/' then
          match IndexOf(s, ')', q + 3)
          case None => None
          case Some(e) => if e > q + 3 then Some(s[q + 2..e]) else None
        else None
    else None
  }

  /**
   * A link matches at `p` exactly when `LinkAt` finds one there, and its
   * path is the text from the `/` after `](` up to the closing `)`.
   */
  lemma LinkAtSpec(s: string, p: nat)
    ensures LinkAt(s, p).Some? ==> exists q, e :: LinkMatch(s, p, q, e) && LinkAt(s, p).value == s[q + 2..e]
    ensures LinkAt(s, p).None? ==> forall q, e :: !LinkMatch(s, p, q, e)
  {
    if p < |s| && s[p] == '[' {
      match IndexOf(s, ']', p + 1)
      case None =>
      case Some(q) =>
        if q > p + 1 && q + 2 < |s| && s[q + 1] == '(' && s[q + 2] == '/' {
          match IndexOf(s, ')', q + 3)
          case None =>
          case Some(e) =>
            if e > q + 3 {
              assert LinkMatch(s, p, q, e);
            }
        }
    }
  }

  /** The position of the leftmost link at or after `from`. */
  function FirstLink(s: string, from: nat): (r: Option<nat>)
    ensures r.Some? ==> from <= r.value < |s| && LinkAt(s, r.value).Some?
    ensures forall k :: from <= k < |s| && (r.None? || k < r.value) ==> LinkAt(s, k).None?
    decreases |s| - from
  {
    if from >= |s| then None
    else if LinkAt(s, from).Some? then Some(from)
    else FirstLink(s, from + 1)
  }

  /** A `.md` path without its `/index.md` and `.md` parts; any other path as it is. */
  function HumanPath(path: string): string {
    if EndsWith(path, ".md") then ReplaceAll(ReplaceAll(path, "/index.md", ""), ".md", "") else path
  }

  /**
   * `_extract_url`: the pair (human-readable URL, `.md` URL) of the first
   * link in `text`, both rooted at `base`; `(None, None)` without a link.
   */
  function ExtractUrl(base: string, text: string): (r: (Option<string>, Option<string>))
    ensures r.0.Some? <==> r.1.Some?
    ensures r.1.None? <==> forall k :: 0 <= k < |text| ==> LinkAt(text, k).None?
    ensures r.1.Some? ==> |r.1.value| >= |base| + 2 && r.1.value[..|base|] == base && r.1.value[|base|] == '/'
    ensures r.1.Some? ==> r.0.value == base + HumanPath(r.1.value[|base|..])
    ensures r.1 == (match FirstLink(text, 0) case None => None case Some(k) => Some(base + LinkAt(text, k).value))
  {
    match FirstLink(text, 0)
    case None => (None, None)
    case Some(k) =>
      var path := LinkAt(text, k).value;
      assert (base + path)[|base|..] == path;
      (Some(base + HumanPath(path)), Some(base + path))
  }

  /** A path that does not end in `.md` is used as the human-readable path unchanged. */
  lemma HumanPathKeepsOtherPaths(path: string)
    requires !EndsWith(path, ".md")
    ensures HumanPath(path) == path
  {
  }

  /* ---------- the two patterns of a bullet line ---------- */

  /** `re.match(r"- \[([^\]]+)\]", line)`: the link text of a bullet. */
  function BulletTitle(line: string): (r: Option<string>)
    ensures r.Some? ==> r.value != [] && ']' !in r.value && StartsWith(line, "- [" + r.value + "]")
    ensures r.None? ==> !StartsWith(line, "- [") || forall k :: 4 <= k < |line| ==> line[k] != ']' || exists j :: 3 <= j < k && line[j] == ']'
  {
    if StartsWith(line, "- [") then
      match IndexOf(line, ']', 3)
      case None => None
      case Some(q) =>
        if q > 3 then
          assert line[..|"- [" + line[3..q] + "]"|] == "- [" + line[3..q] + "]";
          Some(line[3..q])
        else None
    else None
  }

  /**
   * What `\):\s*(.+)` captures when it matches at `p`: the text after `):`
   * without its leading white space; if that text is white space only, the
   * greedy `\s*` gives its last character back to `.+`. Lines hold no line
   * feed, so `.` matches every character of them.
   */
  function RestAt(s: string, p: nat): (r: Option<string>)
    ensures r.Some? <==> p + 2 < |s| && s[p] == ')' && s[p + 1] == ':'
    ensures r.Some? ==> var start := |s| - |r.value|;
      && p + 2 <= start < |s| && r.value == s[start..]
      && (forall k :: p + 2 <= k < start ==> IsSpace(s[k]))
      && (!IsSpace(r.value[0]) || |r.value| == 1)
  {
    if p + 2 < |s| && s[p] == ')' && s[p + 1] == ':' then
      var rest := s[p + 2..];
      var trimmed := LStrip(rest);
      if trimmed != [] then Some(trimmed) else Some(rest[|rest| - 1..])
    else None
  }

  /** `re.search(r"\):\s*(.+)", line)`: the capture at the first `):` that has text after it. */
  function RestAfterLink(s: string, from: nat): (r: Option<string>)
    ensures r.Some? ==> exists p0 :: (from <= p0 && RestAt(s, p0) == r
      && forall p :: from <= p < p0 ==> RestAt(s, p).None?)
    ensures r.None? ==> forall p :: from <= p ==> RestAt(s, p).None?
    decreases |s| - from
  {
    if from >= |s| then None
    else match RestAt(s, from)
      case Some(t) =>
        assert from <= from && RestAt(s, from) == Some(t);
        Some(t)
      case None =>
        var r := RestAfterLink(s, from + 1);
        assert r.Some? ==> exists p0 :: (from <= p0 && RestAt(s, p0) == r
          && forall p :: from <= p < p0 ==> RestAt(s, p).None?) by {
          if r.Some? {
            var p0 :| from + 1 <= p0 && RestAt(s, p0) == r
              && forall p :: from + 1 <= p < p0 ==> RestAt(s, p).None?;
            assert forall p :: from <= p < p0 ==> RestAt(s, p).None?;
          }
        }
        r
  }
}
