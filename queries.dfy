/**
 * The read-only queries `LLMSParser` answers from a parse result:
 * `get_post_by_title`, the filter and sort of `get_posts_by_date`, the
 * filter and truncation of `search_documentation` / `search_tech_blog`,
 * and the text `get_full_post_content` falls back to.
 */
module Queries {
  import opened Wrappers
  import opened Text
  import opened Blog
  import Parse
  import Bm25

  /* ---------- get_post_by_title ---------- */

  /** Case-insensitive substring match of the query in the section title. */
  predicate TitleMatches(s: Section, title: string) {
    Contains(Lower(s.title), Lower(title))
  }

  /** The position of the first section at or after `from` whose title matches. */
  function FirstTitleMatch(sections: seq<Section>, title: string, from: nat): (r: Option<nat>)
    requires from <= |sections|
    ensures r.Some? ==> from <= r.value < |sections| && TitleMatches(sections[r.value], title)
    ensures forall i :: from <= i < (if r.Some? then r.value else |sections|) ==> !TitleMatches(sections[i], title)
    decreases |sections| - from
  {
    if from == |sections| then None
    else if TitleMatches(sections[from], title) then Some(from)
    else FirstTitleMatch(sections, title, from + 1)
  }

  /** `get_post_by_title` over `all_sections`. */
  function FindByTitle(sections: seq<Section>, title: string): Option<Section> {
    match FirstTitleMatch(sections, title, 0)
    case Some(i) => Some(sections[i])
    case None => None
  }

  /** The search finds the first section whose title matches, and only that one. */
  lemma FindByTitleFirst(sections: seq<Section>, title: string, i: nat)
    requires i < |sections| && TitleMatches(sections[i], title)
    requires forall j :: 0 <= j < i ==> !TitleMatches(sections[j], title)
    ensures FindByTitle(sections, title) == Some(sections[i])
  {
    var m := FirstTitleMatch(sections, title, 0);
  }

  /** The search comes back empty exactly when no title matches. */
  lemma FindByTitleNone(sections: seq<Section>, title: string)
    ensures FindByTitle(sections, title).None? <==> forall i :: 0 <= i < |sections| ==> !TitleMatches(sections[i], title)
  {
    var m := FirstTitleMatch(sections, title, 0);
    if m.Some? {
      assert TitleMatches(sections[m.value], title);
    }
  }

  /** The loop of `get_post_by_title`: return the first section whose title matches. */
  method FirstByTitle(sections: seq<Section>, title: string) returns (r: Option<Section>)
    ensures r == FindByTitle(sections, title)
  {
    for i := 0 to |sections|
      invariant forall j :: 0 <= j < i ==> !TitleMatches(sections[j], title)
    {
      if TitleMatches(sections[i], title) {
        FindByTitleFirst(sections, title, i);
        return Some(sections[i]);
      }
    }
    FindByTitleNone(sections, title);
    r := None;
  }

  /* ---------- get_posts_by_date ---------- */

  /** `category` given and non-empty: keep only that category's sections, compared by name. */
  predicate CategoryMatches(s: Section, category: Option<string>) {
    category.None? || category.value == [] || CategoryName(s.category) == category.value
  }

  /**
   * With either date bound given, only dated sections within the bounds
   * (inclusive) are kept; with neither, every section is.
   */
  predicate InDateRange(s: Section, start: Option<Date>, end: Option<Date>) {
    (start.None? && end.None?)
    || (&& s.publishedDate.Some?
        && (start.None? || DateKey(s.publishedDate.value) >= DateKey(start.value))
        && (end.None? || DateKey(s.publishedDate.value) <= DateKey(end.value)))
  }

  predicate Keep(s: Section, start: Option<Date>, end: Option<Date>, category: Option<string>) {
    CategoryMatches(s, category) && InDateRange(s, start, end)
  }

  /** The comprehension that picks the requested category, or every section when none is named. */
  function NamedCategory(sections: seq<Section>, category: Option<string>): seq<Section> {
    if sections == [] then []
    else
      var last := sections[|sections| - 1];
      NamedCategory(sections[..|sections| - 1], category) + (if CategoryMatches(last, category) then [last] else [])
  }

  /** The sections the date loop of `get_posts_by_date` appends, in order. */
  function InRange(sections: seq<Section>, start: Option<Date>, end: Option<Date>): seq<Section> {
    if sections == [] then []
    else
      var last := sections[|sections| - 1];
      InRange(sections[..|sections| - 1], start, end) + (if InDateRange(last, start, end) then [last] else [])
  }

  /** The date loop of `get_posts_by_date`: skip undated sections and those outside the bounds. */
  method FilterByDate(sections: seq<Section>, start: Option<Date>, end: Option<Date>) returns (filtered: seq<Section>)
    ensures filtered == InRange(sections, start, end)
  {
    filtered := [];
    for i := 0 to |sections|
      invariant filtered == InRange(sections[..i], start, end)
    {
      var section := sections[i];
      SnocAt(sections, i);
      if start.Some? || end.Some? {
        if section.publishedDate.None? {
          continue;
        }
        if start.Some? && DateKey(section.publishedDate.value) < DateKey(start.value) {
          continue;
        }
        if end.Some? && DateKey(section.publishedDate.value) > DateKey(end.value) {
          continue;
        }
      }
      filtered := filtered + [section];
    }
    assert sections[..|sections|] == sections;
  }

  /** The sections `get_posts_by_date` keeps, in their order. */
  function Selected(sections: seq<Section>, start: Option<Date>, end: Option<Date>, category: Option<string>): seq<Section> {
    InRange(NamedCategory(sections, category), start, end)
  }

  lemma {:induction false} NamedCategoryMembers(sections: seq<Section>, category: Option<string>, s: Section)
    ensures s in NamedCategory(sections, category) <==> s in sections && CategoryMatches(s, category)
  {
    if sections != [] {
      var init := sections[..|sections| - 1];
      NamedCategoryMembers(init, category, s);
      SnocSplit(sections);
    }
  }

  lemma {:induction false} InRangeMembers(sections: seq<Section>, start: Option<Date>, end: Option<Date>, s: Section)
    ensures s in InRange(sections, start, end) <==> s in sections && InDateRange(s, start, end)
  {
    if sections != [] {
      var init := sections[..|sections| - 1];
      InRangeMembers(init, start, end, s);
      SnocSplit(sections);
    }
  }

  lemma SelectedMembers(sections: seq<Section>, start: Option<Date>, end: Option<Date>, category: Option<string>, s: Section)
    ensures s in Selected(sections, start, end, category) <==> s in sections && Keep(s, start, end, category)
  {
    NamedCategoryMembers(sections, category, s);
    InRangeMembers(NamedCategory(sections, category), start, end, s);
  }

  /** The sort key: the publication date, `datetime.min` for an undated section. */
  function SortKey(s: Section): int {
    DateKey(if s.publishedDate.Some? then s.publishedDate.value else MinDate)
  }

  predicate Newest(s: seq<Section>) {
    forall j, k :: 0 <= j < k < |s| ==> SortKey(s[j]) >= SortKey(s[k])
  }

  /** Stable insertion of `x` after every section at least as new. */
  function InsertByDate(sorted: seq<Section>, x: Section): (r: seq<Section>)
    ensures |r| == |sorted| + 1
  {
    if sorted == [] then [x]
    else if SortKey(sorted[0]) >= SortKey(x) then [sorted[0]] + InsertByDate(sorted[1..], x)
    else [x] + sorted
  }

  /** `sort(key=published_date or datetime.min, reverse=True)`: stable, newest first. */
  function SortByDate(s: seq<Section>): (r: seq<Section>)
    ensures |r| == |s|
  {
    if s == [] then [] else InsertByDate(SortByDate(s[..|s| - 1]), s[|s| - 1])
  }

  /** `get_posts_by_date` over `all_sections`. */
  function PostsByDate(sections: seq<Section>, start: Option<Date>, end: Option<Date>, category: Option<string>): seq<Section> {
    SortByDate(Selected(sections, start, end, category))
  }

  lemma NewestCons(x: Section, s: seq<Section>)
    requires Newest(s)
    requires forall k :: 0 <= k < |s| ==> SortKey(s[k]) <= SortKey(x)
    ensures Newest([x] + s)
  {
    var r := [x] + s;
    forall j, k | 0 <= j < k < |r| ensures SortKey(r[j]) >= SortKey(r[k]) {
      assert r[k] == s[k - 1];
      if j > 0 { assert r[j] == s[j - 1]; }
    }
  }

  lemma {:induction false} InsertBelow(sorted: seq<Section>, x: Section, bound: int)
    requires forall k :: 0 <= k < |sorted| ==> SortKey(sorted[k]) <= bound
    requires SortKey(x) <= bound
    ensures forall k :: 0 <= k < |InsertByDate(sorted, x)| ==> SortKey(InsertByDate(sorted, x)[k]) <= bound
  {
    if sorted != [] && SortKey(sorted[0]) >= SortKey(x) {
      InsertBelow(sorted[1..], x, bound);
    }
  }

  lemma {:induction false} InsertNewest(sorted: seq<Section>, x: Section)
    requires Newest(sorted)
    ensures Newest(InsertByDate(sorted, x))
    ensures multiset(InsertByDate(sorted, x)) == multiset(sorted) + multiset{x}
  {
    if sorted != [] {
      var first, rest := sorted[0], sorted[1..];
      assert sorted == [first] + rest;
      if SortKey(first) >= SortKey(x) {
        InsertNewest(rest, x);
        InsertBelow(rest, x, SortKey(first));
        NewestCons(first, InsertByDate(rest, x));
      } else {
        NewestCons(x, sorted);
      }
    }
  }

  /** Sections sharing the sort key `key`, in order. */
  function WithKey(s: seq<Section>, key: int): seq<Section> {
    if s == [] then [] else (if SortKey(s[0]) == key then [s[0]] else []) + WithKey(s[1..], key)
  }

  lemma {:induction false} WithKeyAppend(s: seq<Section>, t: seq<Section>, key: int)
    ensures WithKey(s + t, key) == WithKey(s, key) + WithKey(t, key)
  {
    if s == [] {
      assert s + t == t;
    } else {
      assert (s + t)[1..] == s[1..] + t;
      WithKeyAppend(s[1..], t, key);
    }
  }

  lemma {:induction false} WithKeyNone(s: seq<Section>, key: int)
    requires forall k :: 0 <= k < |s| ==> SortKey(s[k]) < key
    ensures WithKey(s, key) == []
  {
    if s != [] {
      WithKeyNone(s[1..], key);
    }
  }

  lemma WithKeyCons(x: Section, s: seq<Section>, key: int)
    ensures WithKey([x] + s, key) == (if SortKey(x) == key then [x] else []) + WithKey(s, key)
  {
    assert ([x] + s)[1..] == s;
  }

  lemma NewestTail(s: seq<Section>)
    requires Newest(s) && s != []
    ensures Newest(s[1..])
    ensures forall k :: 0 <= k < |s| ==> SortKey(s[k]) <= SortKey(s[0])
  {
  }

  lemma {:induction false} InsertWithKey(sorted: seq<Section>, x: Section, key: int)
    requires Newest(sorted)
    ensures WithKey(InsertByDate(sorted, x), key) == WithKey(sorted, key) + (if SortKey(x) == key then [x] else [])
  {
    if sorted == [] {
      WithKeyCons(x, [], key);
    } else {
      var first, rest := sorted[0], sorted[1..];
      assert sorted == [first] + rest;
      NewestTail(sorted);
      WithKeyCons(first, rest, key);
      if SortKey(first) >= SortKey(x) {
        InsertWithKey(rest, x, key);
        WithKeyCons(first, InsertByDate(rest, x), key);
      } else {
        if SortKey(x) == key {
          WithKeyNone(sorted, key);
        }
        WithKeyCons(x, sorted, key);
      }
    }
  }

  /** The sort puts the newest first and loses and adds nothing. */
  lemma {:induction false} SortByDateSorts(s: seq<Section>)
    ensures Newest(SortByDate(s))
    ensures multiset(SortByDate(s)) == multiset(s)
  {
    if s != [] {
      SortByDateSorts(s[..|s| - 1]);
      SortStep(s);
    }
  }

  lemma SortStep(s: seq<Section>)
    requires s != []
    requires Newest(SortByDate(s[..|s| - 1]))
    requires multiset(SortByDate(s[..|s| - 1])) == multiset(s[..|s| - 1])
    ensures Newest(SortByDate(s))
    ensures multiset(SortByDate(s)) == multiset(s)
  {
    MultisetSnoc(s);
    InsertNewest(SortByDate(s[..|s| - 1]), s[|s| - 1]);
  }

  lemma SnocSplit<T>(s: seq<T>)
    requires s != []
    ensures s == s[..|s| - 1] + [s[|s| - 1]]
  {
  }

  lemma SnocAt<T>(s: seq<T>, i: nat)
    requires i < |s|
    ensures s[..i + 1] == s[..i] + [s[i]]
    ensures s[..i + 1][..i] == s[..i]
  {
  }

  lemma MultisetSnoc<T>(s: seq<T>)
    requires s != []
    ensures multiset(s) == multiset(s[..|s| - 1]) + multiset{s[|s| - 1]}
  {
    SnocSplit(s);
  }

  /** The sort is stable: sections with the same date keep their relative order. */
  lemma {:induction false} SortByDateStable(s: seq<Section>, key: int)
    ensures WithKey(SortByDate(s), key) == WithKey(s, key)
  {
    if s != [] {
      var init, last := s[..|s| - 1], s[|s| - 1];
      SnocSplit(s);
      SortByDateStable(init, key);
      SortByDateSorts(init);
      InsertWithKey(SortByDate(init), last, key);
      WithKeyAppend(init, [last], key);
      WithKeyCons(last, [], key);
    }
  }

  /**
   * `get_posts_by_date` returns exactly the sections of the requested
   * category within the date bounds (dated ones only when a bound is
   * given), each once, newest first, same-day sections in their original order.
   */
  lemma PostsByDateSpec(sections: seq<Section>, start: Option<Date>, end: Option<Date>, category: Option<string>, s: Section, key: int)
    ensures var r := PostsByDate(sections, start, end, category);
      && Newest(r)
      && multiset(r) == multiset(Selected(sections, start, end, category))
      && (s in r <==> s in sections && Keep(s, start, end, category))
      && WithKey(r, key) == WithKey(Selected(sections, start, end, category), key)
  {
    var sel := Selected(sections, start, end, category);
    SortByDateSorts(sel);
    SortByDateStable(sel, key);
    SelectedMembers(sections, start, end, category, s);
    assert s in PostsByDate(sections, start, end, category) <==> s in multiset(sel);
  }

  /** With a date bound given, no undated section is returned. */
  lemma DateBoundDropsUndated(sections: seq<Section>, start: Option<Date>, end: Option<Date>, category: Option<string>, s: Section)
    requires start.Some? || end.Some?
    requires s in PostsByDate(sections, start, end, category)
    ensures s.publishedDate.Some?
  {
    var sel := Selected(sections, start, end, category);
    SortByDateSorts(sel);
    assert s in multiset(sel);
    SelectedMembers(sections, start, end, category, s);
  }

  /* ---------- search_documentation / search_tech_blog ---------- */

  /** `SearchResult`: a section with its score and matched query terms. */
  datatype SearchResult = SearchResult(section: Section, score: real, matchedTerms: seq<string>)

  function Sections(results: seq<SearchResult>): (r: seq<Section>)
    ensures |r| == |results|
    ensures forall k :: 0 <= k < |r| ==> r[k] == results[k].section
  {
    if results == [] then [] else Sections(results[..|results| - 1]) + [results[|results| - 1].section]
  }

  /** The sections of category `c` among the results, in rank order, cut to `top_k`. */
  function CategorySearch(results: seq<SearchResult>, c: Category, topK: int): seq<Section> {
    Bm25.Take(OfCategory(Sections(results), c), topK)
  }

  lemma {:induction false} OfCategoryMembers(s: seq<Section>, c: Category)
    ensures forall k :: 0 <= k < |OfCategory(s, c)| ==> OfCategory(s, c)[k] in s
  {
    if s != [] {
      var init := s[..|s| - 1];
      OfCategoryMembers(init, c);
      assert forall x :: x in init ==> x in s;
    }
  }

  /**
   * Every section returned has the requested category and comes from the
   * results; the sections are the first of that category in rank order:
   * `top_k` of them unless fewer results have that category, and then all
   * of them.
   */
  lemma CategorySearchSpec(results: seq<SearchResult>, c: Category, topK: int)
    ensures var r := CategorySearch(results, c, topK);
      && (forall k :: 0 <= k < |r| ==> r[k].category == c && r[k] in Sections(results))
      && (0 <= topK ==> |r| <= topK)
      && (0 <= topK && |r| < topK ==> r == OfCategory(Sections(results), c))
      && r <= OfCategory(Sections(results), c)
  {
    OfCategoryMembers(Sections(results), c);
  }

  /* ---------- get_full_post_content ---------- */

  /** The text returned when the full post cannot be fetched: title, summary and the reason. */
  function Fallback(s: Section, note: string): string {
    "# " + s.title + "\n\n" + s.content + "\n\n(" + note + ")"
  }

  const NoUrlNote := "Full content URL not available"

  function FailedNote(message: string): string {
    "Failed to fetch full content: " + message
  }

  /** Whether `get_full_post_content` fetches the post: a section was found and it has an `.md` URL. */
  predicate Fetches(found: Option<Section>) {
    found.Some? && Parse.Truthy(found.value.mdUrl)
  }

  /**
   * What `get_full_post_content` returns, given the section the title
   * search found and, when it fetched the post, the body or the failure's
   * message.
   */
  function FullPost(found: Option<Section>, fetched: Option<Result<string, string>>): Option<string>
    requires fetched.Some? <==> Fetches(found)
  {
    match found
    case None => None
    case Some(s) =>
      if fetched.None? then Some(Fallback(s, NoUrlNote))
      else match fetched.value
        case Ok(text) => Some(text)
        case Err(message) => Some(Fallback(s, FailedNote(message)))
  }

  /**
   * There is a text exactly when a section was found. A successful fetch
   * gives the fetched body. Otherwise the text starts with the section's
   * title as a heading and holds its summary; a section without an `.md`
   * URL gets the note saying so, and a failed fetch ends with a note that
   * carries the failure's message.
   */
  lemma FullPostSpec(found: Option<Section>, fetched: Option<Result<string, string>>)
    requires fetched.Some? <==> Fetches(found)
    ensures FullPost(found, fetched).Some? <==> found.Some?
    ensures found.Some? && !(fetched.Some? && fetched.value.Ok?) ==>
      var r := FullPost(found, fetched).value;
      var head := "# " + found.value.title + "\n\n";
      && StartsWith(r, head)
      && OccursAt(r, found.value.content, |head|)
    ensures found.Some? && fetched.None? ==> FullPost(found, fetched) == Some(Fallback(found.value, NoUrlNote))
    ensures fetched.Some? && fetched.value.Ok? ==> FullPost(found, fetched) == Some(fetched.value.value)
    ensures found.Some? && fetched.Some? && fetched.value.Err? ==>
      EndsWith(FullPost(found, fetched).value, "(" + FailedNote(fetched.value.error) + ")")
  {
    if found.Some? && !(fetched.Some? && fetched.value.Ok?) {
      var note := if fetched.None? then NoUrlNote else FailedNote(fetched.value.error);
      FallbackShape(found.value, note);
    }
  }

  /** The fallback text: the title as a heading, the summary, then the note in parentheses. */
  lemma FallbackShape(s: Section, note: string)
    ensures var head := "# " + s.title + "\n\n";
      && StartsWith(Fallback(s, note), head)
      && OccursAt(Fallback(s, note), s.content, |head|)
      && EndsWith(Fallback(s, note), "(" + note + ")")
  {
    var head := "# " + s.title + "\n\n";
    assert Fallback(s, note) == head + s.content + ("\n\n(" + note + ")");
    Parts(head, s.content, "\n\n(" + note + ")");
    assert "\n\n(" + note + ")" == "\n\n" + ("(" + note + ")");
    assert Fallback(s, note) == (head + s.content) + "\n\n" + ("(" + note + ")");
    Parts(head + s.content, "\n\n", "(" + note + ")");
  }

  lemma Parts<T>(a: seq<T>, b: seq<T>, c: seq<T>)
    ensures (a + b + c)[..|a|] == a
    ensures (a + b + c)[|a|..|a| + |b|] == b
    ensures (a + b + c)[|a| + |b|..] == c
  {
  }
}
