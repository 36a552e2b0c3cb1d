/**
 * `LLMSParser._parse_sections`: one forward pass over the lines of the
 * document with a small mutable state (category, sub-context, the open
 * section's title, body lines and URL pair), appending finished sections to
 * the list of their category.
 *
 * `Step` and `Save` give the meaning of one line and of `save_section` as
 * functions on a `State`; `ParseSections` is the loop itself, proved to end
 * in the state `Parse` describes.
 */
module Parse {
  import opened Wrappers
  import opened Text
  import opened Blog
  import opened Extract

  /** The variables the scan keeps between lines, and the content built so far. */
  datatype State = State(
    category: Option<Category>,
    subContext: Option<string>,
    title: Option<string>,
    body: seq<string>,
    url: Option<string>,
    mdUrl: Option<string>,
    parsed: Content)

  /** Python truthiness of an optional string: present and non-empty. */
  predicate Truthy(o: Option<string>) {
    o.Some? && o.value != []
  }

  /** `f"{current_sub_context or ''} {current_section}"`. */
  function SubcategoryContext(subContext: Option<string>, title: string): string {
    (if Truthy(subContext) then subContext.value else "") + " " + title
  }

  /** The guard of `save_section`: a title, at least one body line and a category. */
  predicate CanSave(st: State) {
    Truthy(st.title) && st.body != [] && st.category.Some?
  }

  /** The section `save_section` builds from an open section. */
  function NewSection(st: State, base: string): (s: Section)
    requires CanSave(st)
    ensures s.title == st.title.value && s.category == st.category.value
    ensures s.content == Strip(Join('\n', st.body))
    ensures s.publishedDate == ExtractDate(s.content)
    ensures s.subcategory == ExtractSubcategory(SubcategoryContext(st.subContext, st.title.value))
    ensures Truthy(st.url) ==> s.url == st.url && s.mdUrl == st.mdUrl
    ensures !Truthy(st.url) ==> (s.url, s.mdUrl) == ExtractUrl(base, s.content)
    ensures s.tags == []
  {
    var text := Strip(Join('\n', st.body));
    var urls := if Truthy(st.url) then (st.url, st.mdUrl) else ExtractUrl(base, text);
    Section(st.title.value, text, st.category.value,
      ExtractSubcategory(SubcategoryContext(st.subContext, st.title.value)),
      urls.0, urls.1, ExtractDate(text), [])
  }

  /**
   * `save_section`. A rejected save changes nothing at all; an accepted one
   * appends one section to exactly the list of the open category and clears
   * the title, the body and both URLs (but not the category or sub-context).
   */
  function Save(st: State, base: string): (r: State)
    ensures !CanSave(st) ==> r == st
    ensures CanSave(st) ==>
      && r.parsed.Bucket(st.category.value) == st.parsed.Bucket(st.category.value) + [NewSection(st, base)]
      && (forall c :: c != st.category.value ==> r.parsed.Bucket(c) == st.parsed.Bucket(c))
      && r.parsed.rawContent == st.parsed.rawContent
      && r.parsed.fetchedAt == st.parsed.fetchedAt && r.parsed.sourceUrl == st.parsed.sourceUrl
      && r.title.None? && r.body == [] && r.url.None? && r.mdUrl.None?
      && r.category == st.category && r.subContext == st.subContext
  {
    if CanSave(st) then
      st.(parsed := st.parsed.Append(st.category.value, NewSection(st, base)),
          title := None, body := [], url := None, mdUrl := None)
    else st
  }

  predicate IsH2(s: string) { StartsWith(s, "## ") }
  predicate IsH3(s: string) { StartsWith(s, "### ") }
  predicate IsH4(s: string) { StartsWith(s, "#### ") }
  predicate IsBullet(s: string) { StartsWith(s, "- [") }

  /** `f"{current} > {sub}" if current else sub`. */
  function Nest(current: Option<string>, sub: string): string {
    if Truthy(current) then current.value + " > " + sub else sub
  }

  /** A `## ` heading: save, then open the heading's category and drop the sub-context. */
  function OnH2(st: State, s: string, base: string): State
    requires IsH2(s)
  {
    Save(st, base).(category := CategoryOf(Strip(s[3..])), subContext := None)
  }

  /** A `### ` heading: save, then replace the sub-context. */
  function OnH3(st: State, s: string, base: string): State
    requires IsH3(s)
  {
    Save(st, base).(subContext := Some(Strip(s[4..])))
  }

  /** A `#### ` heading: save, then extend the sub-context with ` > `. */
  function OnH4(st: State, s: string, base: string): State
    requires IsH4(s)
  {
    var saved := Save(st, base);
    saved.(subContext := Some(Nest(saved.subContext, Strip(s[5..]))))
  }

  /** A `- [` line: save, then open a section if the bullet has link text. */
  function OnBullet(st: State, s: string, base: string): State {
    var saved := Save(st, base);
    match BulletTitle(s)
    case None => saved
    case Some(t) =>
      var urls := ExtractUrl(base, s);
      saved.(title := Some(t), url := urls.0, mdUrl := urls.1,
             body := match RestAfterLink(s, 0) case Some(rest) => [rest] case None => [])
  }

  /** Any other line: kept verbatim, only while a category and a title are open. */
  function OnOther(st: State, line: string): State {
    if st.category.Some? && Truthy(st.title) then st.(body := st.body + [line]) else st
  }

  /** What one line does to the state, in the source's order of tests. */
  function Step(st: State, line: string, base: string): State {
    var s := Strip(line);
    if IsH2(s) then OnH2(st, s, base)
    else if IsH3(s) then OnH3(st, s, base)
    else if IsH4(s) then OnH4(st, s, base)
    else if IsBullet(s) then OnBullet(st, s, base)
    else OnOther(st, line)
  }

  /** The state before the first line. */
  function Initial(raw: string, sourceUrl: string, now: int): State {
    State(None, None, None, [], None, None, Content(raw, [], [], [], [], now, sourceUrl))
  }

  /** The state after the given lines. */
  function Scan(lines: seq<string>, base: string, init: State): State
    decreases |lines|
  {
    if lines == [] then init
    else Step(Scan(lines[..|lines| - 1], base, init), lines[|lines| - 1], base)
  }

  lemma ScanLast(lines: seq<string>, i: nat, base: string, init: State)
    requires i < |lines|
    ensures Scan(lines[..i + 1], base, init) == Step(Scan(lines[..i], base, init), lines[i], base)
  {
    assert lines[..i + 1][..i] == lines[..i];
  }

  /** The lines of the document as `content.split("\n")` gives them. */
  function Lines(raw: string): seq<string> {
    Split(raw, '\n')
  }

  /** `_parse_sections` as a function: scan every line, then save the last section. */
  function Parse(raw: string, base: string, sourceUrl: string, now: int): Content {
    Save(Scan(Lines(raw), base, Initial(raw, sourceUrl, now)), base).parsed
  }

  /** `save_section`, as the nested function updates the scan's variables. */
  method SaveSection(
    category: Option<Category>, subContext: Option<string>, title: Option<string>, body: seq<string>,
    url: Option<string>, mdUrl: Option<string>, parsed: Content, base: string)
    returns (title': Option<string>, body': seq<string>, url': Option<string>, mdUrl': Option<string>, parsed': Content)
    ensures State(category, subContext, title', body', url', mdUrl', parsed')
         == Save(State(category, subContext, title, body, url, mdUrl, parsed), base)
  {
    title', body', url', mdUrl', parsed' := title, body, url, mdUrl, parsed;
    if Truthy(title) && body != [] && category.Some? {
      var contentText := Strip(Join('\n', body));
      var pubDate := ExtractDate(contentText);
      if !Truthy(url) {
        var urls := ExtractUrl(base, contentText);
        url', mdUrl' := urls.0, urls.1;
      }
      var subcategory := ExtractSubcategory(SubcategoryContext(subContext, title.value));
      var section := Section(title.value, contentText, category.value, subcategory, url', mdUrl', pubDate, []);
      match category.value {
        case Documentation => parsed' := parsed.(documentation := parsed.documentation + [section]);
        case TechBlog => parsed' := parsed.(techBlog := parsed.techBlog + [section]);
        case Reflections => parsed' := parsed.(reflections := parsed.reflections + [section]);
        case Trends => parsed' := parsed.(trends := parsed.trends + [section]);
      }
      title', body', url', mdUrl' := None, [], None, None;
    }
  }

  /** One pass of the line loop of `_parse_sections`: the branch the stripped line selects. */
  method ProcessLine(
    category: Option<Category>, subContext: Option<string>, title: Option<string>, body: seq<string>,
    url: Option<string>, mdUrl: Option<string>, parsed: Content, line: string, base: string)
    returns (category': Option<Category>, subContext': Option<string>, title': Option<string>, body': seq<string>,
             url': Option<string>, mdUrl': Option<string>, parsed': Content)
    ensures State(category', subContext', title', body', url', mdUrl', parsed')
         == Step(State(category, subContext, title, body, url, mdUrl, parsed), line, base)
  {
    category', subContext', title', body', url', mdUrl', parsed' := category, subContext, title, body, url, mdUrl, parsed;
    var stripped := Strip(line);
    ghost var before := State(category, subContext, title, body, url, mdUrl, parsed);
    if StartsWith(stripped, "## ") {
      title', body', url', mdUrl', parsed' := SaveSection(category, subContext, title, body, url, mdUrl, parsed, base);
      category' := CategoryOf(Strip(stripped[3..]));
      subContext' := None;
    } else if StartsWith(stripped, "### ") {
      title', body', url', mdUrl', parsed' := SaveSection(category, subContext, title, body, url, mdUrl, parsed, base);
      subContext' := Some(Strip(stripped[4..]));
    } else if StartsWith(stripped, "#### ") {
      title', body', url', mdUrl', parsed' := SaveSection(category, subContext, title, body, url, mdUrl, parsed, base);
      var sub := Strip(stripped[5..]);
      subContext' := Some(if Truthy(subContext) then subContext.value + " > " + sub else sub);
    } else if StartsWith(stripped, "- [") {
      title', body', url', mdUrl', parsed' := SaveSection(category, subContext, title, body, url, mdUrl, parsed, base);
      var titleMatch := BulletTitle(stripped);
      if titleMatch.Some? {
        title' := titleMatch;
        var urls := ExtractUrl(base, stripped);
        url', mdUrl' := urls.0, urls.1;
        var restMatch := RestAfterLink(stripped, 0);
        if restMatch.Some? {
          body' := [restMatch.value];
        } else {
          body' := [];
        }
      }
    } else if category.Some? && Truthy(title) {
      body' := body + [line];
    }
  }

  /** `_parse_sections`: the line loop, ending in the content `Parse` describes. */
  method ParseSections(raw: string, base: string, sourceUrl: string, now: int) returns (parsed: Content)
    ensures parsed == Parse(raw, base, sourceUrl, now)
  {
    var lines := Split(raw, '\n');
    parsed := Content(raw, [], [], [], [], now, sourceUrl);
    var category: Option<Category> := None;
    var subContext: Option<string> := None;
    var title: Option<string> := None;
    var body: seq<string> := [];
    var url: Option<string> := None;
    var mdUrl: Option<string> := None;

    for i := 0 to |lines|
      invariant State(category, subContext, title, body, url, mdUrl, parsed)
             == Scan(lines[..i], base, Initial(raw, sourceUrl, now))
    {
      category, subContext, title, body, url, mdUrl, parsed :=
        ProcessLine(category, subContext, title, body, url, mdUrl, parsed, lines[i], base);
      ScanLast(lines, i, base, Initial(raw, sourceUrl, now));
    }
    assert lines[..|lines|] == lines;
    title, body, url, mdUrl, parsed := SaveSection(category, subContext, title, body, url, mdUrl, parsed, base);
  }

  /* ---------- properties of the scan ---------- */

  /** A `## `, `### ` or `#### ` heading. */
  predicate IsHeading(s: string) { IsH2(s) || IsH3(s) || IsH4(s) }

  /**
   * When `save_section` rejects the open section, a heading that follows
   * resets nothing of it: the old title, body lines and URL pair stay live
   * into the next category or group.
   */
  lemma RejectedSaveSurvivesHeading(st: State, line: string, base: string)
    requires !CanSave(st) && IsHeading(Strip(line))
    ensures var r := Step(st, line, base);
      r.title == st.title && r.body == st.body && r.url == st.url && r.mdUrl == st.mdUrl
      && r.parsed == st.parsed
  {
  }

  /**
   * A section opened while no category is open cannot be saved, so it
   * survives the next `## ` heading, which opens that heading's category;
   * the following save files the section under it.
   */
  lemma OpenSectionTakesNextCategory(st: State, line: string, base: string, c: Category)
    requires st.category.None? && Truthy(st.title) && st.body != []
    requires IsH2(Strip(line)) && CategoryOf(Strip(Strip(line)[3..])) == Some(c)
    ensures var r := Step(st, line, base);
      && r.category == Some(c) && r.title == st.title && r.body == st.body && r.parsed == st.parsed
      && CanSave(r) && NewSection(r, base).title == st.title.value
      && Save(r, base).parsed.Bucket(c) == st.parsed.Bucket(c) + [NewSection(r, base)]
  {
  }

  /**
   * A titled bullet with text after its link, followed by a `## ` heading of
   * a known category, parses to one section of that category, although no
   * category was open when the bullet was read.
   */
  lemma BulletBeforeCategory(bullet: string, heading: string, base: string, sourceUrl: string, now: int, c: Category)
    requires '\n' !in bullet && '\n' !in heading
    requires IsBullet(Strip(bullet)) && BulletTitle(Strip(bullet)).Some? && RestAfterLink(Strip(bullet), 0).Some?
    requires IsH2(Strip(heading)) && CategoryOf(Strip(Strip(heading)[3..])) == Some(c)
    ensures var sections := Parse(bullet + "\n" + heading, base, sourceUrl, now).Bucket(c);
      |sections| == 1 && sections[0].title == BulletTitle(Strip(bullet)).value && sections[0].category == c
  {
    var raw := bullet + "\n" + heading;
    TwoLines(bullet, heading);
    var init := Initial(raw, sourceUrl, now);
    ScanOne(bullet, base, init);
    ScanTwo(bullet, heading, base, init);
    var pending := Scan([bullet], base, init);
    BulletOpensSection(init, bullet, base);
    OpenSectionTakesNextCategory(pending, heading, base, c);
  }

  /** Two lines without a line feed, joined by one, split back into those lines. */
  lemma TwoLines(a: string, b: string)
    requires '\n' !in a && '\n' !in b
    ensures Lines(a + "\n" + b) == [a, b]
  {
    assert Join('\n', [a, b]) == a + "\n" + b;
    SplitJoin([a, b], '\n');
  }

  lemma ScanOne(a: string, base: string, init: State)
    ensures Scan([a], base, init) == Step(init, a, base)
  {
    ScanSnoc([], a, base, init);
    assert [] + [a] == [a];
  }

  lemma ScanTwo(a: string, b: string, base: string, init: State)
    ensures Scan([a, b], base, init) == Step(Scan([a], base, init), b, base)
  {
    ScanSnoc([a], b, base, init);
    assert [a] + [b] == [a, b];
  }

  /** Scanning one more line is one more step. */
  lemma ScanSnoc(lines: seq<string>, line: string, base: string, init: State)
    ensures Scan(lines + [line], base, init) == Step(Scan(lines, base, init), line, base)
  {
    assert (lines + [line])[..|lines|] == lines;
  }

  /** A `- [` line is none of the three headings. */
  lemma BulletIsNoHeading(s: string)
    requires IsBullet(s)
    ensures !IsH2(s) && !IsH3(s) && !IsH4(s)
  {
    assert s[..3][0] == '-';
  }

  /** A titled bullet with text after its link opens a section, saving nothing when nothing can be saved. */
  lemma BulletOpensSection(st: State, bullet: string, base: string)
    requires !CanSave(st)
    requires IsBullet(Strip(bullet)) && BulletTitle(Strip(bullet)).Some? && RestAfterLink(Strip(bullet), 0).Some?
    ensures var r := Step(st, bullet, base);
      && r.title == BulletTitle(Strip(bullet)) && Truthy(r.title) && r.body == [RestAfterLink(Strip(bullet), 0).value]
      && r.category == st.category && r.parsed == st.parsed
  {
    var s := Strip(bullet);
    BulletIsNoHeading(s);
    assert Save(st, base) == st;
    assert Step(st, bullet, base) == OnBullet(st, s, base);
  }

  /** Every list of `b` continues the matching list of `a`. */
  predicate Extends(a: Content, b: Content) {
    && a.documentation <= b.documentation && a.techBlog <= b.techBlog
    && a.reflections <= b.reflections && a.trends <= b.trends
    && a.rawContent == b.rawContent && a.fetchedAt == b.fetchedAt && a.sourceUrl == b.sourceUrl
  }

  /** A line changes the sections only through `save_section`. */
  lemma StepParsed(st: State, line: string, base: string)
    ensures Step(st, line, base).parsed == Save(st, base).parsed || Step(st, line, base).parsed == st.parsed
  {
    var s := Strip(line);
    if IsH2(s) {
    } else if IsH3(s) {
    } else if IsH4(s) {
    } else if IsBullet(s) {
    } else {
    }
  }

  lemma SaveExtends(st: State, base: string)
    ensures Extends(st.parsed, Save(st, base).parsed)
  {
    if CanSave(st) {
      var r := Save(st, base).parsed;
      match st.category.value {
        case Documentation => assert r.documentation == st.parsed.documentation + [NewSection(st, base)];
        case TechBlog => assert r.techBlog == st.parsed.techBlog + [NewSection(st, base)];
        case Reflections => assert r.reflections == st.parsed.reflections + [NewSection(st, base)];
        case Trends => assert r.trends == st.parsed.trends + [NewSection(st, base)];
      }
    }
  }

  lemma StepExtends(st: State, line: string, base: string)
    ensures Extends(st.parsed, Save(st, base).parsed)
    ensures Extends(st.parsed, Step(st, line, base).parsed)
  {
    SaveExtends(st, base);
    StepParsed(st, line, base);
  }

  /**
   * Sections are only ever appended: the lists after any prefix of the lines
   * are prefixes of the final lists, so each list keeps document order.
   */
  lemma {:induction false} ScanExtends(lines: seq<string>, i: nat, base: string, init: State)
    requires i <= |lines|
    ensures Extends(Scan(lines[..i], base, init).parsed, Scan(lines, base, init).parsed)
    decreases |lines|
  {
    if i == |lines| {
      assert lines[..i] == lines;
    } else {
      var prefix := lines[..|lines| - 1];
      assert lines[..i] == prefix[..i];
      ScanExtends(prefix, i, base, init);
      StepExtends(Scan(prefix, base, init), lines[|lines| - 1], base);
    }
  }

  /** Every section of `Parse` was already there, in the same place, after any prefix of the lines. */
  lemma ParseKeepsOrder(raw: string, base: string, sourceUrl: string, now: int, i: nat)
    requires i <= |Lines(raw)|
    ensures Extends(Scan(Lines(raw)[..i], base, Initial(raw, sourceUrl, now)).parsed, Parse(raw, base, sourceUrl, now))
  {
    var init := Initial(raw, sourceUrl, now);
    ScanExtends(Lines(raw), i, base, init);
    StepExtends(Scan(Lines(raw), base, init), "", base);
  }

  /** `Save` and `Step` keep every section in the list of its own category, titled. */
  lemma StepWellCategorised(st: State, line: string, base: string)
    requires st.parsed.WellCategorised()
    ensures Save(st, base).parsed.WellCategorised()
    ensures Step(st, line, base).parsed.WellCategorised()
  {
    StepParsed(st, line, base);
    SaveWellCategorised(st, base);
  }

  lemma SaveWellCategorised(st: State, base: string)
    requires st.parsed.WellCategorised()
    ensures Save(st, base).parsed.WellCategorised()
  {
    if CanSave(st) {
      var c := st.category.value;
      var x := NewSection(st, base);
      var r := Save(st, base).parsed;
      forall d: Category ensures AllTitledIn(st.parsed.Bucket(d), d) {
        match d
        case Documentation =>
        case TechBlog =>
        case Reflections =>
        case Trends =>
      }
      AppendTitled(st.parsed.Bucket(c), x, c);
      forall d: Category ensures AllTitledIn(r.Bucket(d), d) {
        if d != c { assert r.Bucket(d) == st.parsed.Bucket(d); }
      }
      WellCategorisedByBucket(r);
    }
  }

  lemma {:induction false} ScanWellCategorised(lines: seq<string>, base: string, init: State)
    requires init.parsed.WellCategorised()
    ensures Scan(lines, base, init).parsed.WellCategorised()
    decreases |lines|
  {
    if lines != [] {
      ScanWellCategorised(lines[..|lines| - 1], base, init);
      StepWellCategorised(Scan(lines[..|lines| - 1], base, init), lines[|lines| - 1], base);
    }
  }

  /**
   * The result of a parse: every section is in the list of its category and
   * has a title, and the raw text, source and time are those given.
   */
  lemma ParseWellCategorised(raw: string, base: string, sourceUrl: string, now: int)
    ensures Parse(raw, base, sourceUrl, now).WellCategorised()
    ensures Parse(raw, base, sourceUrl, now).rawContent == raw
    ensures Parse(raw, base, sourceUrl, now).sourceUrl == sourceUrl
    ensures Parse(raw, base, sourceUrl, now).fetchedAt == now
  {
    var init := Initial(raw, sourceUrl, now);
    ScanWellCategorised(Lines(raw), base, init);
    StepWellCategorised(Scan(Lines(raw), base, init), "", base);
    ParseKeepsOrder(raw, base, sourceUrl, now, 0);
  }

  /** 1 while a section is open (has a title), else 0. */
  function Open(st: State): nat {
    if Truthy(st.title) then 1 else 0
  }

  /** The number of lines that open a section: bullets whose link text matches. */
  function TitledBullets(lines: seq<string>): nat {
    if lines == [] then 0
    else TitledBullets(lines[..|lines| - 1]) + (if BulletTitle(Strip(lines[|lines| - 1])).Some? then 1 else 0)
  }

  lemma SaveCounts(st: State, base: string)
    ensures Save(st, base).parsed.SectionCount() + Open(Save(st, base)) == st.parsed.SectionCount() + Open(st)
  {
    if CanSave(st) {
      var c := st.category.value;
      var r := Save(st, base).parsed;
      assert |r.Bucket(c)| == |st.parsed.Bucket(c)| + 1;
      match c {
        case Documentation =>
        case TechBlog =>
        case Reflections =>
        case Trends =>
      }
    }
  }

  lemma StepCounts(st: State, line: string, base: string)
    ensures Step(st, line, base).parsed.SectionCount() + Open(Step(st, line, base))
         <= st.parsed.SectionCount() + Open(st) + (if BulletTitle(Strip(line)).Some? then 1 else 0)
  {
    var s := Strip(line);
    var saved := Save(st, base);
    SaveCounts(st, base);
    var next := Step(st, line, base);
    if IsH2(s) {
      assert next.parsed == saved.parsed && next.title == saved.title;
    } else if IsH3(s) {
      assert next.parsed == saved.parsed && next.title == saved.title;
    } else if IsH4(s) {
      assert next.parsed == saved.parsed && next.title == saved.title;
    } else if IsBullet(s) {
      assert next.parsed == saved.parsed;
      assert BulletTitle(s).None? ==> next.title == saved.title;
    } else {
      assert next.parsed == st.parsed && next.title == st.title;
    }
  }

  /**
   * Each section comes from its own bullet line: the sections saved, plus
   * the one still open, never outnumber the bullets that opened a section.
   */
  lemma {:induction false} ScanCounts(lines: seq<string>, base: string, init: State)
    ensures Scan(lines, base, init).parsed.SectionCount() + Open(Scan(lines, base, init))
         <= init.parsed.SectionCount() + Open(init) + TitledBullets(lines)
    decreases |lines|
  {
    if lines != [] {
      ScanCounts(lines[..|lines| - 1], base, init);
      StepCounts(Scan(lines[..|lines| - 1], base, init), lines[|lines| - 1], base);
    }
  }

  lemma ParseCounts(raw: string, base: string, sourceUrl: string, now: int)
    ensures Parse(raw, base, sourceUrl, now).SectionCount() <= TitledBullets(Lines(raw))
  {
    var init := Initial(raw, sourceUrl, now);
    assert init.parsed.SectionCount() == 0 && Open(init) == 0;
    ScanCounts(Lines(raw), base, init);
    var last := Scan(Lines(raw), base, init);
    SaveCounts(last, base);
    assert Parse(raw, base, sourceUrl, now) == Save(last, base).parsed;
  }

  /**
   * Without a `## ` heading no category is ever open, so nothing is saved:
   * bullets in a document without any `## ` heading yield no section (when a
   * heading follows, `BulletBeforeCategory` shows the bullet is saved).
   */
  lemma {:induction false} ScanWithoutCategory(lines: seq<string>, base: string, init: State)
    requires init.category.None?
    requires forall k :: 0 <= k < |lines| ==> !IsH2(Strip(lines[k]))
    ensures Scan(lines, base, init).category.None?
    ensures Scan(lines, base, init).parsed == init.parsed
    decreases |lines|
  {
    if lines != [] {
      ScanWithoutCategory(lines[..|lines| - 1], base, init);
      StepWithoutCategory(Scan(lines[..|lines| - 1], base, init), lines[|lines| - 1], base);
    }
  }

  /** A line that is not a `## ` heading opens no category and saves nothing. */
  lemma StepWithoutCategory(st: State, line: string, base: string)
    requires st.category.None?
    requires !IsH2(Strip(line))
    ensures Step(st, line, base).category.None?
    ensures Step(st, line, base).parsed == st.parsed
  {
  }

  lemma ParseWithoutCategory(raw: string, base: string, sourceUrl: string, now: int)
    requires forall k :: 0 <= k < |Lines(raw)| ==> !IsH2(Strip(Lines(raw)[k]))
    ensures Parse(raw, base, sourceUrl, now).SectionCount() == 0
  {
    ScanWithoutCategory(Lines(raw), base, Initial(raw, sourceUrl, now));
  }
}
