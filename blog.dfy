/**
 * The records the parser produces and the cache holds: `BlogSection`,
 * `LLMSContent` (with its `all_sections` view) and `CacheEntry`.
 */
module Blog {
  import opened Wrappers

  /** The four main categories a `## ` heading can open. */
  datatype Category = Documentation | TechBlog | Reflections | Trends

  /** The name the source stores in `BlogSection.category`. */
  function CategoryName(c: Category): string {
    match c
    case Documentation => "documentation"
    case TechBlog => "tech_blog"
    case Reflections => "reflections"
    case Trends => "trends"
  }

  /** A calendar date as `datetime.strptime(..., "%Y-%m-%d")` produces it. */
  datatype Date = Date(year: int, month: int, day: int)

  predicate IsLeapYear(y: int) {
    y % 4 == 0 && (y % 100 != 0 || y % 400 == 0)
  }

  function DaysInMonth(y: int, m: int): int {
    if m == 2 then (if IsLeapYear(y) then 29 else 28)
    else if m == 4 || m == 6 || m == 9 || m == 11 then 30
    else 31
  }

  /** The dates `datetime` can represent: years 1 to 9999, real months and days. */
  predicate ValidDate(d: Date) {
    1 <= d.year <= 9999 && 1 <= d.month <= 12 && 1 <= d.day <= DaysInMonth(d.year, d.month)
  }

  /** A number that orders valid dates as `datetime` comparison does. */
  function DateKey(d: Date): int {
    d.year * 10000 + d.month * 100 + d.day
  }

  /** `datetime.min`, the sort key of an undated section. */
  const MinDate := Date(1, 1, 1)

  lemma DateKeyOrdersDates(d: Date, e: Date)
    requires ValidDate(d) && ValidDate(e)
    ensures DateKey(d) < DateKey(e) <==>
      d.year < e.year || (d.year == e.year && (d.month < e.month || (d.month == e.month && d.day < e.day)))
    ensures DateKey(d) == DateKey(e) <==> d == e
    ensures DateKey(MinDate) <= DateKey(d)
  {
  }

  /** `BlogSection`. */
  datatype Section = Section(
    title: string,
    content: string,
    category: Category,
    subcategory: Option<string>,
    url: Option<string>,
    mdUrl: Option<string>,
    publishedDate: Option<Date>,
    tags: seq<string>)
  {
    /** `full_text`: the text the search engine indexes. */
    function FullText(): string {
      title + " " + content
    }
  }

  /** `LLMSContent`: the four category lists of one parse, in document order. */
  datatype Content = Content(
    rawContent: string,
    documentation: seq<Section>,
    techBlog: seq<Section>,
    reflections: seq<Section>,
    trends: seq<Section>,
    fetchedAt: int,
    sourceUrl: string)
  {
    /** The list that holds the sections of category `c`. */
    function Bucket(c: Category): seq<Section> {
      match c
      case Documentation => documentation
      case TechBlog => techBlog
      case Reflections => reflections
      case Trends => trends
    }

    /** The same content with `s` appended to the list of its category `c`. */
    function Append(c: Category, s: Section): (r: Content)
      ensures r.Bucket(c) == Bucket(c) + [s]
      ensures forall d :: d != c ==> r.Bucket(d) == Bucket(d)
      ensures r.rawContent == rawContent && r.fetchedAt == fetchedAt && r.sourceUrl == sourceUrl
    {
      match c
      case Documentation => this.(documentation := documentation + [s])
      case TechBlog => this.(techBlog := techBlog + [s])
      case Reflections => this.(reflections := reflections + [s])
      case Trends => this.(trends := trends + [s])
    }

    /** `all_sections`: documentation, tech blog, reflections, trends, in that order. */
    function AllSections(): seq<Section> {
      documentation + techBlog + reflections + trends
    }

    function SectionCount(): nat {
      |documentation| + |techBlog| + |reflections| + |trends|
    }

    /** Every section sits in the list of its own category and has a title. */
    predicate WellCategorised() {
      && AllTitledIn(documentation, Documentation)
      && AllTitledIn(techBlog, TechBlog)
      && AllTitledIn(reflections, Reflections)
      && AllTitledIn(trends, Trends)
    }
  }

  /** Every section of `s` has category `c` and a non-empty title. */
  predicate AllTitledIn(s: seq<Section>, c: Category) {
    forall k :: 0 <= k < |s| ==> s[k].category == c && s[k].title != []
  }

  lemma AppendTitled(s: seq<Section>, x: Section, c: Category)
    requires AllTitledIn(s, c) && x.category == c && x.title != []
    ensures AllTitledIn(s + [x], c)
  {
    assert forall k :: 0 <= k < |s| ==> (s + [x])[k] == s[k];
  }

  lemma WellCategorisedByBucket(content: Content)
    requires forall d :: AllTitledIn(content.Bucket(d), d)
    ensures content.WellCategorised()
  {
    assert AllTitledIn(content.Bucket(Documentation), Documentation);
    assert AllTitledIn(content.Bucket(TechBlog), TechBlog);
    assert AllTitledIn(content.Bucket(Reflections), Reflections);
    assert AllTitledIn(content.Bucket(Trends), Trends);
  }

  /** The sections of `s` whose category is `c`, in order. */
  function OfCategory(s: seq<Section>, c: Category): (r: seq<Section>)
    ensures |r| <= |s|
    ensures forall k :: 0 <= k < |r| ==> r[k].category == c
  {
    if s == [] then []
    else OfCategory(s[..|s| - 1], c) + (if s[|s| - 1].category == c then [s[|s| - 1]] else [])
  }

  lemma {:induction false} OfCategoryAppend(s: seq<Section>, t: seq<Section>, c: Category)
    ensures OfCategory(s + t, c) == OfCategory(s, c) + OfCategory(t, c)
    decreases |t|
  {
    if t == [] {
      assert s + t == s;
    } else {
      assert (s + t)[..|s + t| - 1] == s + t[..|t| - 1];
      OfCategoryAppend(s, t[..|t| - 1], c);
    }
  }

  lemma {:induction false} OfCategoryAll(s: seq<Section>, c: Category)
    requires forall k :: 0 <= k < |s| ==> s[k].category == c
    ensures OfCategory(s, c) == s
  {
    if s != [] {
      OfCategoryAll(s[..|s| - 1], c);
    }
  }

  lemma {:induction false} OfCategoryNone(s: seq<Section>, c: Category)
    requires forall k :: 0 <= k < |s| ==> s[k].category != c
    ensures OfCategory(s, c) == []
  {
    if s != [] {
      OfCategoryNone(s[..|s| - 1], c);
    }
  }

  /**
   * In well-categorised content the `all_sections` view loses nothing and
   * mixes nothing: picking category `c` out of it gives back exactly the
   * list of category `c`.
   */
  lemma AllSectionsByCategory(content: Content, c: Category)
    requires content.WellCategorised()
    ensures |content.AllSections()| == content.SectionCount()
    ensures OfCategory(content.AllSections(), c) == content.Bucket(c)
  {
    OfCategoryOfAll(content, c);
    match c {
      case Documentation => PickDocumentation(content);
      case TechBlog => PickTechBlog(content);
      case Reflections => PickReflections(content);
      case Trends => PickTrends(content);
    }
  }

  lemma PickDocumentation(content: Content)
    requires content.WellCategorised()
    ensures OfCategory(content.documentation, Documentation) + OfCategory(content.techBlog, Documentation)
      + OfCategory(content.reflections, Documentation) + OfCategory(content.trends, Documentation) == content.documentation
  {
    OneOfFour(OfCategory(content.documentation, Documentation), OfCategory(content.techBlog, Documentation),
      OfCategory(content.reflections, Documentation), OfCategory(content.trends, Documentation));
    OfCategoryAll(content.documentation, Documentation); OfCategoryNone(content.techBlog, Documentation);
    OfCategoryNone(content.reflections, Documentation); OfCategoryNone(content.trends, Documentation);
  }

  lemma PickTechBlog(content: Content)
    requires content.WellCategorised()
    ensures OfCategory(content.documentation, TechBlog) + OfCategory(content.techBlog, TechBlog)
      + OfCategory(content.reflections, TechBlog) + OfCategory(content.trends, TechBlog) == content.techBlog
  {
    OneOfFour(OfCategory(content.documentation, TechBlog), OfCategory(content.techBlog, TechBlog),
      OfCategory(content.reflections, TechBlog), OfCategory(content.trends, TechBlog));
    OfCategoryNone(content.documentation, TechBlog); OfCategoryAll(content.techBlog, TechBlog);
    OfCategoryNone(content.reflections, TechBlog); OfCategoryNone(content.trends, TechBlog);
  }

  lemma PickReflections(content: Content)
    requires content.WellCategorised()
    ensures OfCategory(content.documentation, Reflections) + OfCategory(content.techBlog, Reflections)
      + OfCategory(content.reflections, Reflections) + OfCategory(content.trends, Reflections) == content.reflections
  {
    OneOfFour(OfCategory(content.documentation, Reflections), OfCategory(content.techBlog, Reflections),
      OfCategory(content.reflections, Reflections), OfCategory(content.trends, Reflections));
    OfCategoryNone(content.documentation, Reflections); OfCategoryNone(content.techBlog, Reflections);
    OfCategoryAll(content.reflections, Reflections); OfCategoryNone(content.trends, Reflections);
  }

  lemma PickTrends(content: Content)
    requires content.WellCategorised()
    ensures OfCategory(content.documentation, Trends) + OfCategory(content.techBlog, Trends)
      + OfCategory(content.reflections, Trends) + OfCategory(content.trends, Trends) == content.trends
  {
    OneOfFour(OfCategory(content.documentation, Trends), OfCategory(content.techBlog, Trends),
      OfCategory(content.reflections, Trends), OfCategory(content.trends, Trends));
    OfCategoryNone(content.documentation, Trends); OfCategoryNone(content.techBlog, Trends);
    OfCategoryNone(content.reflections, Trends); OfCategoryAll(content.trends, Trends);
  }

  /** Joining four lists of which at most one is non-empty gives that one. */
  lemma OneOfFour<T>(a: seq<T>, b: seq<T>, c: seq<T>, d: seq<T>)
    ensures b == c == d == [] ==> a + b + c + d == a
    ensures a == c == d == [] ==> a + b + c + d == b
    ensures a == b == d == [] ==> a + b + c + d == c
    ensures a == b == c == [] ==> a + b + c + d == d
  {
  }

  /** Picking a category out of `all_sections` picks it out of each list in turn. */
  lemma OfCategoryOfAll(content: Content, c: Category)
    ensures OfCategory(content.AllSections(), c) ==
      OfCategory(content.documentation, c) + OfCategory(content.techBlog, c)
      + OfCategory(content.reflections, c) + OfCategory(content.trends, c)
  {
    var d, t, r, n := content.documentation, content.techBlog, content.reflections, content.trends;
    OfCategoryAppend(d + t + r, n, c);
    OfCategoryAppend(d + t, r, c);
    OfCategoryAppend(d, t, c);
  }

  /** `CacheEntry`: a parse result and the time it stops being fresh. */
  datatype CacheEntry = CacheEntry(content: Content, expiresAt: int) {
    /** `is_expired`: the clock has passed the expiry time. */
    predicate IsExpired(now: int) {
      now > expiresAt
    }
  }
}
