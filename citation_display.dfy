/** What `main` in app.py shows for each citation record: a location badge
    built from the rule metadata, a preview of the excerpt, the relevance
    badge and the "Read full excerpt" expander. The same block appears twice
    in app.py (replaying the chat history, and right after a new answer);
    both are `CardOf`. */
module CitationDisplay {
  import opened Wrappers
  import opened PyStrings
  import KnowledgeBase

  /** Number of characters the preview keeps. */
  const PreviewLimit := 200
  const Ellipsis := "..."
  const LabelSeparator := ", "

  // ---------------------------------------------------------------------
  // Location label

  /** The label titles, in the order they are appended. */
  datatype Title = Rule | Section | Part | Article | Page

  /** The text shown for a title. */
  function Name(t: Title): string {
    match t
    case Rule => "Rule"
    case Section => "Section"
    case Part => "Part"
    case Article => "Article"
    case Page => "Page"
  }

  /** Position of a title in the label order. */
  function Position(t: Title): nat {
    match t
    case Rule => 0
    case Section => 1
    case Part => 2
    case Article => 3
    case Page => 4
  }

  /** One piece of the label: a title and its value. */
  datatype Component = Component(title: Title, value: string)

  /** `metadata.get(key)`. */
  function Get(m: map<string, string>, key: string): Option<string> {
    if key in m then Some(m[key]) else None
  }

  /** `metadata.get('part', metadata.get('subsection'))`. */
  function PartValue(m: map<string, string>): Option<string> {
    if "part" in m then Get(m, "part") else Get(m, "subsection")
  }

  /** The metadata value a title stands for: `part` wins over `subsection`. */
  function ValueFor(m: map<string, string>, t: Title): Option<string> {
    match t
    case Rule => Get(m, "rule")
    case Section => Get(m, "section")
    case Part => PartValue(m)
    case Article => Get(m, "article")
    case Page => Get(m, "page")
  }

  /** A metadata key that feeds the label. */
  predicate LabelKey(key: string) {
    key in {"rule", "section", "part", "subsection", "article", "page"}
  }

  /** Every component carries the metadata value of its title. */
  predicate Sound(m: map<string, string>, cs: seq<Component>) {
    forall i :: 0 <= i < |cs| ==> ValueFor(m, cs[i].title) == Some(cs[i].value)
  }

  /** Titles appear in strictly increasing position, hence each at most once. */
  predicate Ordered(cs: seq<Component>) {
    forall i, j :: 0 <= i < j < |cs| ==> Position(cs[i].title) < Position(cs[j].title)
  }

  /** Every title in `cs` comes after `t`. */
  predicate After(t: Title, cs: seq<Component>) {
    forall i :: 0 <= i < |cs| ==> Position(t) < Position(cs[i].title)
  }

  /** Some component has title `t`. */
  predicate Covers(cs: seq<Component>, t: Title) {
    exists i :: 0 <= i < |cs| && cs[i].title == t
  }

  /** One `if key in metadata: location_parts.append(...)` step. */
  function Slot(title: Title, v: Option<string>): seq<Component> {
    if v.Some? then [Component(title, v.value)] else []
  }

  // The components from each title onward, the last steps first.

  function FromPage(m: map<string, string>): seq<Component> {
    Slot(Page, Get(m, "page"))
  }

  function FromArticle(m: map<string, string>): seq<Component> {
    Slot(Article, Get(m, "article")) + FromPage(m)
  }

  function FromPart(m: map<string, string>): seq<Component> {
    Slot(Part, PartValue(m)) + FromArticle(m)
  }

  function FromSection(m: map<string, string>): seq<Component> {
    Slot(Section, Get(m, "section")) + FromPart(m)
  }

  /** The `location_parts` list, before formatting: the five
      `if key in metadata: location_parts.append(...)` steps in their order. */
  function LocationComponents(m: map<string, string>): seq<Component> {
    Slot(Rule, Get(m, "rule")) + FromSection(m)
  }

  /** Putting the slot of title `t` in front of a sound, ordered list of
      later titles keeps it sound and ordered; the result lies after
      `prev` when `prev` comes before `t`. */
  lemma PrependSlot(m: map<string, string>, prev: Title, t: Title, v: Option<string>, ys: seq<Component>)
    requires ValueFor(m, t) == v
    requires Sound(m, ys) && Ordered(ys) && After(t, ys)
    ensures Sound(m, Slot(t, v) + ys) && Ordered(Slot(t, v) + ys)
    ensures Position(prev) < Position(t) ==> After(prev, Slot(t, v) + ys)
  {
  }

  /** A title covered by a suffix is covered by the whole list. */
  lemma CoversSuffix(xs: seq<Component>, ys: seq<Component>, t: Title)
    requires Covers(ys, t)
    ensures Covers(xs + ys, t)
  {
    var i :| 0 <= i < |ys| && ys[i].title == t;
    assert (xs + ys)[|xs| + i] == ys[i];
  }

  /** A present slot covers its title. */
  lemma CoversSlot(t: Title, v: Option<string>, ys: seq<Component>)
    requires v.Some?
    ensures Covers(Slot(t, v) + ys, t)
  {
    assert (Slot(t, v) + ys)[0].title == t;
  }

  /** Each component carries the metadata value of its title, and the
      titles come in the fixed order Rule, Section, Part, Article, Page (so
      each at most once). */
  lemma LocationComponentsSoundOrdered(m: map<string, string>)
    ensures Sound(m, LocationComponents(m))
    ensures Ordered(LocationComponents(m))
  {
    PrependSlot(m, Article, Page, Get(m, "page"), []);
    assert FromPage(m) == Slot(Page, Get(m, "page")) + [];
    PrependSlot(m, Part, Article, Get(m, "article"), FromPage(m));
    PrependSlot(m, Section, Part, PartValue(m), FromArticle(m));
    PrependSlot(m, Rule, Section, Get(m, "section"), FromPart(m));
    PrependSlot(m, Rule, Rule, Get(m, "rule"), FromSection(m));
  }

  /** Every title whose metadata is present has its component. */
  lemma LocationComponentsComplete(m: map<string, string>, t: Title)
    requires ValueFor(m, t).Some?
    ensures Covers(LocationComponents(m), t)
  {
    var rule := Slot(Rule, Get(m, "rule"));
    var section := Slot(Section, Get(m, "section"));
    var part := Slot(Part, PartValue(m));
    var article := Slot(Article, Get(m, "article"));
    match t
    case Rule =>
      CoversSlot(Rule, Get(m, "rule"), FromSection(m));
    case Section =>
      CoversSlot(Section, Get(m, "section"), FromPart(m));
      CoversSuffix(rule, FromSection(m), t);
    case Part =>
      CoversSlot(Part, PartValue(m), FromArticle(m));
      CoversSuffix(section, FromPart(m), t);
      CoversSuffix(rule, FromSection(m), t);
    case Article =>
      CoversSlot(Article, Get(m, "article"), FromPage(m));
      CoversSuffix(part, FromArticle(m), t);
      CoversSuffix(section, FromPart(m), t);
      CoversSuffix(rule, FromSection(m), t);
    case Page =>
      CoversSlot(Page, Get(m, "page"), []);
      assert FromPage(m) == Slot(Page, Get(m, "page")) + [];
      CoversSuffix(article, FromPage(m), t);
      CoversSuffix(part, FromArticle(m), t);
      CoversSuffix(section, FromPart(m), t);
      CoversSuffix(rule, FromSection(m), t);
  }

  /** The three facts together: sound, ordered and complete, they determine
      the component list. */
  lemma LocationComponentsSpec(m: map<string, string>)
    ensures Sound(m, LocationComponents(m))
    ensures Ordered(LocationComponents(m))
    ensures forall t :: ValueFor(m, t).Some? ==> Covers(LocationComponents(m), t)
  {
    LocationComponentsSoundOrdered(m);
    forall t | ValueFor(m, t).Some? ensures Covers(LocationComponents(m), t) {
      LocationComponentsComplete(m, t);
    }
  }

  /** `f"{title} {value}"`. */
  function Render(c: Component): string {
    Name(c.title) + " " + c.value
  }

  function RenderAll(cs: seq<Component>): (r: seq<string>)
    ensures |r| == |cs|
    ensures forall i :: 0 <= i < |cs| ==> r[i] == Render(cs[i])
  {
    if cs == [] then [] else [Render(cs[0])] + RenderAll(cs[1..])
  }

  /** `rule_location`: the rendered components joined by ", ", or `None`
      when no component is present. */
  function LocationLabel(m: map<string, string>): (r: Option<string>)
    ensures r.None? <==>
      !("rule" in m || "section" in m || "part" in m || "subsection" in m || "article" in m || "page" in m)
    ensures r.Some? ==> r.value == Join(RenderAll(LocationComponents(m)), LabelSeparator)
    ensures r.Some? ==> r.value != ""
    ensures r.Some? ==> var first := Render(LocationComponents(m)[0]);
      |first| <= |r.value| && r.value[..|first|] == first
  {
    var cs := LocationComponents(m);
    if cs == [] then None else Some(Join(RenderAll(cs), LabelSeparator))
  }

  /** At most one "Part" component, and it carries `part` if present,
      otherwise `subsection`. */
  lemma PartAtMostOnce(m: map<string, string>, i: nat, j: nat)
    requires i < |LocationComponents(m)| && j < |LocationComponents(m)|
    requires LocationComponents(m)[i].title == Part && LocationComponents(m)[j].title == Part
    ensures i == j
    ensures LocationComponents(m)[i].value == if "part" in m then m["part"] else m["subsection"]
  {
    LocationComponentsSpec(m);
  }

  /** The label depends only on the six label keys. */
  lemma LabelIgnoresOtherKeys(m: map<string, string>, m': map<string, string>)
    requires forall key :: LabelKey(key) ==> (key in m <==> key in m')
    requires forall key :: LabelKey(key) && key in m ==> m[key] == m'[key]
    ensures LocationLabel(m) == LocationLabel(m')
  {
    assert LabelKey("rule") && LabelKey("section") && LabelKey("part");
    assert LabelKey("subsection") && LabelKey("article") && LabelKey("page");
    assert LocationComponents(m) == LocationComponents(m');
  }

  /** A record with rule, section, subsection and page metadata. */
  lemma LabelExample()
    ensures LocationLabel(map["rule" := "10", "section" := "II", "subsection" := "b", "page" := "3"])
      == Some("Rule 10, Section II, Part b, Page 3")
  {
    var m := map["rule" := "10", "section" := "II", "subsection" := "b", "page" := "3"];
    var cs := [Component(Rule, "10"), Component(Section, "II"), Component(Part, "b"), Component(Page, "3")];
    var parts := ["Rule 10", "Section II", "Part b", "Page 3"];
    ExampleComponents();
    assert LocationComponents(m) == cs;
    ExampleRendered();
    assert RenderAll(cs) == parts;
    ExampleJoined();
    assert Join(parts, LabelSeparator) == "Rule 10, Section II, Part b, Page 3";
  }

  /** The rendered components of the example record, joined. */
  lemma ExampleJoined()
    ensures Join(["Rule 10", "Section II", "Part b", "Page 3"], LabelSeparator) == "Rule 10, Section II, Part b, Page 3"
  {
    JoinFour("Rule 10", "Section II", "Part b", "Page 3", ", ");
    var tail := "Part b" + ", " + "Page 3";
    assert tail == "Part b, Page 3";
    var middle := "Section II" + ", " + tail;
    assert middle == "Section II, Part b, Page 3";
    assert "Rule 10" + ", " + middle == "Rule 10, Section II, Part b, Page 3";
  }

  /** The components of the example record, rendered. */
  lemma ExampleRendered()
    ensures RenderAll([Component(Rule, "10"), Component(Section, "II"), Component(Part, "b"), Component(Page, "3")])
      == ["Rule 10", "Section II", "Part b", "Page 3"]
  {
    var cs := [Component(Rule, "10"), Component(Section, "II"), Component(Part, "b"), Component(Page, "3")];
    var r := RenderAll(cs);
    assert r[0] == Render(cs[0]) == "Rule" + " " + "10" == "Rule 10";
    assert r[1] == Render(cs[1]) == "Section" + " " + "II" == "Section II";
    assert r[2] == Render(cs[2]) == "Part" + " " + "b" == "Part b";
    assert r[3] == Render(cs[3]) == "Page" + " " + "3" == "Page 3";
  }

  /** The components of the example record: the `subsection` value fills
      the Part slot, and the absent `article` leaves its slot empty. */
  lemma ExampleComponents()
    ensures LocationComponents(map["rule" := "10", "section" := "II", "subsection" := "b", "page" := "3"])
      == [Component(Rule, "10"), Component(Section, "II"), Component(Part, "b"), Component(Page, "3")]
  {
    var m := map["rule" := "10", "section" := "II", "subsection" := "b", "page" := "3"];
    assert "page" in m && m["page"] == "3";
    assert "article" !in m;
    assert FromArticle(m) == [Component(Page, "3")];
    assert "part" !in m && "subsection" in m && m["subsection"] == "b";
    assert FromPart(m) == [Component(Part, "b"), Component(Page, "3")];
    assert "section" in m && m["section"] == "II";
    assert FromSection(m) == [Component(Section, "II"), Component(Part, "b"), Component(Page, "3")];
    assert "rule" in m && m["rule"] == "10";
  }

  /** `", ".join` of four pieces. */
  lemma JoinFour(a: string, b: string, c: string, d: string, sep: string)
    ensures Join([a, b, c, d], sep) == a + sep + (b + sep + (c + sep + d))
  {
    assert [c, d][1..] == [d];
    assert Join([c, d], sep) == c + sep + d;
    assert [b, c, d][1..] == [c, d];
    assert Join([b, c, d], sep) == b + sep + (c + sep + d);
    assert [a, b, c, d][1..] == [b, c, d];
  }

  /** The single-key record of a rulebook excerpt. */
  lemma LabelRuleOnly()
    ensures LocationLabel(map["rule" := "10"]) == Some("Rule 10")
    ensures LocationLabel(map["source" := "rulebook.pdf"]) == None
  {
    var cs := [Component(Rule, "10")];
    assert LocationComponents(map["rule" := "10"]) == cs;
    assert Render(cs[0]) == "Rule 10";
  }

  // ---------------------------------------------------------------------
  // Excerpt preview

  /** The expander with the full excerpt is offered. */
  predicate ShowsExpander(content: string) {
    |content| > PreviewLimit
  }

  /** `content[:200] + "..." if len(content) > 200 else content`. The preview
      is at most three characters longer than the limit, always opens with
      the same characters as the content, ends in "..." after the first 200
      characters when the content is cut, and differs from the content only
      when the expander is shown (the single exception being a 203-character
      content that already ends in "...", which the cut reproduces exactly). */
  function Preview(content: string): (p: string)
    ensures |p| <= PreviewLimit + |Ellipsis|
    ensures var n := if |content| < PreviewLimit then |content| else PreviewLimit;
      n <= |p| && p[..n] == content[..n]
    ensures ShowsExpander(content) ==> |p| == PreviewLimit + |Ellipsis| && p[PreviewLimit..] == Ellipsis
    ensures p == content <==>
      !ShowsExpander(content) || (|content| == PreviewLimit + |Ellipsis| && content[PreviewLimit..] == Ellipsis)
  {
    if |content| > PreviewLimit then content[..PreviewLimit] + Ellipsis else content
  }

  // ---------------------------------------------------------------------
  // One displayed citation

  /** What is shown for one citation: the location badge, the raw relevance
      score (shown as a percentage), the preview, and the full excerpt
      behind the expander. */
  datatype Card = Card(
    badge: Option<string>,
    relevance: Option<real>,
    preview: string,
    fullExcerpt: Option<string>)

  /** The per-citation block of `main`. The badge is shown when the label
      is non-empty (`if rule_location:`), which is exactly when it exists. */
  function CardOf(c: KnowledgeBase.Citation): (card: Card)
    ensures card.badge == LocationLabel(c.metadata)
    ensures card.badge.None? <==> forall key :: LabelKey(key) ==> key !in c.metadata
    ensures card.relevance == c.score
    ensures card.preview == Preview(c.content)
    ensures card.fullExcerpt.Some? <==> ShowsExpander(c.content)
    ensures card.fullExcerpt.Some? ==> card.fullExcerpt.value == c.content
    ensures card.fullExcerpt.None? ==> card.preview == c.content
  {
    var text := LocationLabel(c.metadata);
    assert LabelKey("rule") && LabelKey("section") && LabelKey("part");
    assert LabelKey("subsection") && LabelKey("article") && LabelKey("page");
    Card(
      badge := if text.Some? && text.value != "" then text else None,
      relevance := c.score,
      preview := Preview(c.content),
      fullExcerpt := if ShowsExpander(c.content) then Some(c.content) else None)
  }

  /** A reference without text is shown as the placeholder, in full, with
      no expander; one without metadata gets no badge. */
  lemma BareReferenceCard(ref: KnowledgeBase.Reference)
    requires ref.content.None? && ref.metadata.None?
    ensures var card := CardOf(KnowledgeBase.CitationOf(ref));
      card.preview == KnowledgeBase.NoContent && card.fullExcerpt.None? && card.badge.None?
  {
  }
}
