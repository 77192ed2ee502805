/** Post-processing of a Bedrock `retrieve_and_generate` answer into flat
    citation records, as `query_knowledge_base` in app.py does it.

    The response is the nested JSON record the service returns; every key the
    code looks up with `in` or `.get` is an `Option` here. The remote call and
    the client construction are not modelled: their outcomes are parameters. */
module KnowledgeBase {
  import opened Wrappers
  import opened PyStrings

  const Unknown := "Unknown"
  const NoContent := "No content available"
  const UnknownFile := "Unknown file"
  const ClientInitError := "Error: Could not initialize Bedrock client"
  const QueryErrorPrefix := "Error querying knowledge base: "

  // ---------------------------------------------------------------------
  // The response record

  /** `ref['content']`, a record with an optional `text`. */
  datatype Content = Content(text: Option<string>)

  /** One location entry: `s3Location` carries its link under `uri`, the
      others under `url`. */
  datatype Locator = Locator(link: Option<string>)

  /** `ref['location']`: a dictionary that may hold any of the five kinds. */
  datatype Location = Location(
    s3: Option<Locator>,
    web: Option<Locator>,
    confluence: Option<Locator>,
    salesforce: Option<Locator>,
    sharepoint: Option<Locator>)

  /** One element of `retrievedReferences`. */
  datatype Reference = Reference(
    content: Option<Content>,
    location: Option<Location>,
    metadata: Option<map<string, string>>,
    score: Option<real>)

  /** One element of `response['citations']`. */
  datatype CitationGroup = CitationGroup(retrievedReferences: Option<seq<Reference>>)

  datatype Output = Output(text: Option<string>)

  datatype Response = Response(output: Option<Output>, citations: Option<seq<CitationGroup>>)

  /** What the `retrieve_and_generate` call did: answered, raised a
      botocore `ClientError` (with its error code and message), or raised
      any other exception (with its text). */
  datatype CallOutcome =
    | Responded(response: Response)
    | ServiceError(code: string, message: string)
    | Failed(description: string)

  /** The flat `citation_data` dictionary; `filename` and `score` are keys
      that only some records carry. */
  datatype Citation = Citation(
    content: string,
    uri: string,
    sourceType: string,
    metadata: map<string, string>,
    filename: Option<string>,
    score: Option<real>)

  // ---------------------------------------------------------------------
  // Location kinds and their priority

  /** The location kinds, in the order the code tests them. */
  datatype Kind = S3 | Web | Confluence | Salesforce | SharePoint

  /** Position of a kind in the test order: lower is tried first. */
  function Rank(k: Kind): nat {
    match k
    case S3 => 0
    case Web => 1
    case Confluence => 2
    case Salesforce => 3
    case SharePoint => 4
  }

  /** The entry of `loc` for kind `k`. */
  function Field(loc: Location, k: Kind): Option<Locator> {
    match k
    case S3 => loc.s3
    case Web => loc.web
    case Confluence => loc.confluence
    case Salesforce => loc.salesforce
    case SharePoint => loc.sharepoint
  }

  /** The `source_type` a record gets for kind `k`: S3 never assigns one,
      so it keeps its initial "Unknown". */
  function SourceTypeFor(k: Kind): string {
    match k
    case S3 => Unknown
    case Web => "Web"
    case Confluence => "Confluence"
    case Salesforce => "Salesforce"
    case SharePoint => "SharePoint"
  }

  /** `k` is present in `loc` and no kind tried before it is. */
  predicate FirstPresent(loc: Location, k: Kind) {
    Field(loc, k).Some? && forall j :: Rank(j) < Rank(k) ==> Field(loc, j).None?
  }

  /** The `if`/`elif` chain over the location keys. */
  function Select(loc: Location): (r: Option<(Kind, Locator)>)
    ensures r.Some? ==> FirstPresent(loc, r.value.0) && Field(loc, r.value.0) == Some(r.value.1)
    ensures r.None? <==> forall k :: Field(loc, k).None?
  {
    if loc.s3.Some? then Some((S3, loc.s3.value))
    else if loc.web.Some? then Some((Web, loc.web.value))
    else if loc.confluence.Some? then Some((Confluence, loc.confluence.value))
    else if loc.salesforce.Some? then Some((Salesforce, loc.salesforce.value))
    else if loc.sharepoint.Some? then Some((SharePoint, loc.sharepoint.value))
    else None
  }

  /** At most one kind is the first present one. */
  lemma FirstPresentUnique(loc: Location, a: Kind, b: Kind)
    requires FirstPresent(loc, a) && FirstPresent(loc, b)
    ensures a == b
  {
  }

  // ---------------------------------------------------------------------
  // One record per reference

  /** `ref.get('content', {}).get('text', 'No content available')`. */
  function ContentText(ref: Reference): string {
    match ref.content
    case Some(c) => c.text.GetOr(NoContent)
    case None => NoContent
  }

  /** The filename derived from an S3 URI. */
  function FilenameOf(uri: string): (name: string)
    ensures '/' !in name
    ensures uri == Unknown ==> name == UnknownFile
    ensures uri != Unknown ==> |name| <= |uri| && uri[|uri| - |name|..] == name
    ensures uri != Unknown && |name| < |uri| ==> uri[|uri| - |name| - 1] == '/'
  {
    if uri != Unknown then LastSegment(uri, '/') else UnknownFile
  }

  /** The filename of an object in a bucket is its key's last part. */
  lemma FilenameExample()
    ensures FilenameOf("s3://nba-rules/2024/rulebook.pdf") == "rulebook.pdf"
  {
    var uri := "s3://nba-rules/2024/rulebook.pdf";
    assert uri[|uri| - 12..] == "rulebook.pdf";
    assert uri[|uri| - 13] == '/';
    LastSegmentUnique(uri, '/', "rulebook.pdf");
  }

  /** The record `query_knowledge_base` appends for one reference. */
  function CitationOf(ref: Reference): (c: Citation)
    ensures ref.content.Some? && ref.content.value.text.Some? ==> c.content == ref.content.value.text.value
    ensures !(ref.content.Some? && ref.content.value.text.Some?) ==> c.content == NoContent
    ensures ref.metadata.Some? ==> c.metadata == ref.metadata.value
    ensures ref.metadata.None? ==> c.metadata == map[]
    ensures c.score == ref.score
    // no location, or a location of none of the five kinds: nothing is set
    ensures (ref.location.None? || forall k :: Field(ref.location.value, k).None?) ==>
      c.uri == Unknown && c.sourceType == Unknown && c.filename.None?
    // otherwise exactly the first present kind decides uri, source type and filename
    ensures forall k :: ref.location.Some? && FirstPresent(ref.location.value, k) ==>
      && c.uri == Field(ref.location.value, k).value.link.GetOr(Unknown)
      && c.sourceType == SourceTypeFor(k)
      && (c.filename.Some? <==> k == S3)
    ensures c.filename.Some? ==> c.filename.value == FilenameOf(c.uri) && '/' !in c.filename.value
  {
    var selected := if ref.location.Some? then Select(ref.location.value) else None;
    var uri := if selected.Some? then selected.value.1.link.GetOr(Unknown) else Unknown;
    assert forall k :: ref.location.Some? && FirstPresent(ref.location.value, k) ==> selected == Some((k, Field(ref.location.value, k).value)) by {
      forall k | ref.location.Some? && FirstPresent(ref.location.value, k)
        ensures selected == Some((k, Field(ref.location.value, k).value))
      {
        FirstPresentUnique(ref.location.value, k, selected.value.0);
      }
    }
    Citation(
      content := ContentText(ref),
      uri := uri,
      sourceType := if selected.Some? then SourceTypeFor(selected.value.0) else Unknown,
      metadata := ref.metadata.GetOr(map[]),
      filename := if selected.Some? && selected.value.0 == S3 then Some(FilenameOf(uri)) else None,
      score := ref.score)
  }

  /** The body of the inner loop: `citation_data` starts with its defaults
      and its keys are then overwritten step by step. */
  method BuildCitation(ref: Reference) returns (c: Citation)
    ensures c == CitationOf(ref)
  {
    c := Citation(ContentText(ref), Unknown, Unknown, map[], None, None);
    if ref.location.Some? {
      var location := ref.location.value;
      if location.s3.Some? {
        c := c.(uri := location.s3.value.link.GetOr(Unknown));
        if c.uri != Unknown {
          c := c.(filename := Some(LastSegment(c.uri, '/')));
        } else {
          c := c.(filename := Some(UnknownFile));
        }
      } else if location.web.Some? {
        c := c.(uri := location.web.value.link.GetOr(Unknown), sourceType := "Web");
      } else if location.confluence.Some? {
        c := c.(uri := location.confluence.value.link.GetOr(Unknown), sourceType := "Confluence");
      } else if location.salesforce.Some? {
        c := c.(uri := location.salesforce.value.link.GetOr(Unknown), sourceType := "Salesforce");
      } else if location.sharepoint.Some? {
        c := c.(uri := location.sharepoint.value.link.GetOr(Unknown), sourceType := "SharePoint");
      }
    }
    if ref.metadata.Some? {
      c := c.(metadata := ref.metadata.value);
    }
    if ref.score.Some? {
      c := c.(score := ref.score);
    }
  }

  // ---------------------------------------------------------------------
  // All references, in nested order

  /** `citation.get('retrievedReferences')`, empty when the key is absent. */
  function GroupReferences(g: CitationGroup): seq<Reference> {
    g.retrievedReferences.GetOr([])
  }

  /** The references of `groups`, group after group, each in its own order. */
  function Flatten(groups: seq<CitationGroup>): seq<Reference>
    decreases |groups|
  {
    if groups == [] then []
    else Flatten(groups[..|groups| - 1]) + GroupReferences(groups[|groups| - 1])
  }

  /** Every retrieved reference of a response, in the order the loops visit them. */
  function RetrievedReferences(r: Response): seq<Reference> {
    if r.citations.Some? then Flatten(r.citations.value) else []
  }

  /** Flattening respects concatenation: groups keep their relative order. */
  lemma {:induction false} FlattenAppend(a: seq<CitationGroup>, b: seq<CitationGroup>)
    ensures Flatten(a + b) == Flatten(a) + Flatten(b)
    decreases |b|
  {
    if b == [] {
      assert a + b == a;
    } else {
      var n := |b| - 1;
      assert (a + b)[..|a + b| - 1] == a + b[..n];
      FlattenAppend(a, b[..n]);
    }
  }

  /** A reference is emitted exactly when some group lists it. */
  lemma {:induction false} FlattenMembership(groups: seq<CitationGroup>, ref: Reference)
    ensures ref in Flatten(groups) <==> exists i :: 0 <= i < |groups| && ref in GroupReferences(groups[i])
    decreases |groups|
  {
    if groups != [] {
      var n := |groups| - 1;
      FlattenMembership(groups[..n], ref);
      if ref in Flatten(groups) && ref !in GroupReferences(groups[n]) {
        var i :| 0 <= i < n && ref in GroupReferences(groups[..n][i]);
        assert groups[i] == groups[..n][i];
      }
      if exists i :: 0 <= i < |groups| && ref in GroupReferences(groups[i]) {
        var i :| 0 <= i < |groups| && ref in GroupReferences(groups[i]);
        if i < n {
          assert groups[..n][i] == groups[i];
        }
      }
    }
  }

  /** The number of references listed by `groups`, counted group by group. */
  function ReferenceCount(groups: seq<CitationGroup>): nat
    decreases |groups|
  {
    if groups == [] then 0 else |GroupReferences(groups[0])| + ReferenceCount(groups[1..])
  }

  /** One reference out per listed reference: nothing is dropped or added. */
  lemma {:induction false} FlattenLength(groups: seq<CitationGroup>)
    ensures |Flatten(groups)| == ReferenceCount(groups)
    decreases |groups|
  {
    if groups != [] {
      FlattenLength(groups[1..]);
      assert groups == [groups[0]] + groups[1..];
      FlattenAppend([groups[0]], groups[1..]);
      assert [groups[0]][..0] == [];
    }
  }

  /** A response without `citations`, or whose groups all lack
      `retrievedReferences`, yields no references. */
  lemma {:induction false} NoReferences(r: Response)
    requires r.citations.None? ||
      forall i :: 0 <= i < |r.citations.value| ==> r.citations.value[i].retrievedReferences.None?
    ensures RetrievedReferences(r) == []
  {
    if r.citations.Some? {
      var groups := r.citations.value;
      FlattenLength(groups);
      ReferenceCountZero(groups);
    }
  }

  lemma {:induction false} ReferenceCountZero(groups: seq<CitationGroup>)
    requires forall i :: 0 <= i < |groups| ==> groups[i].retrievedReferences.None?
    ensures ReferenceCount(groups) == 0
    decreases |groups|
  {
    if groups != [] {
      ReferenceCountZero(groups[1..]);
    }
  }

  // ---------------------------------------------------------------------
  // The extraction loop and the query

  /** The nested `for` loops of `query_knowledge_base`: one record per
      retrieved reference, in nested input order. */
  method ExtractCitations(response: Response) returns (citations: seq<Citation>)
    ensures |citations| == |RetrievedReferences(response)|
    ensures forall k :: 0 <= k < |citations| ==> citations[k] == CitationOf(RetrievedReferences(response)[k])
  {
    citations := [];
    if response.citations.Some? {
      var groups := response.citations.value;
      var i := 0;
      while i < |groups|
        invariant 0 <= i <= |groups|
        invariant |citations| == |Flatten(groups[..i])|
        invariant forall k :: 0 <= k < |citations| ==> citations[k] == CitationOf(Flatten(groups[..i])[k])
      {
        assert groups[..i + 1][..i] == groups[..i];
        if groups[i].retrievedReferences.Some? {
          var refs := groups[i].retrievedReferences.value;
          ghost var before := Flatten(groups[..i]);
          var j := 0;
          while j < |refs|
            invariant 0 <= j <= |refs|
            invariant |citations| == |before| + j
            invariant forall k :: 0 <= k < |citations| ==> citations[k] == CitationOf((before + refs[..j])[k])
          {
            var c := BuildCitation(refs[j]);
            citations := citations + [c];
            assert (before + refs[..j + 1]) == (before + refs[..j]) + [refs[j]];
            j := j + 1;
          }
          assert refs[..j] == refs;
        }
        i := i + 1;
      }
      assert groups[..i] == groups;
    }
  }

  /** The `'output' → 'text'` lookup; a missing key raises `KeyError`,
      whose text is the key in quotes. */
  function GeneratedText(r: Response): Result<string, string> {
    match r.output
    case None => Failure("'output'")
    case Some(o) =>
      match o.text
      case None => Failure("'text'")
      case Some(t) => Success(t)
  }

  /** `query_knowledge_base`, given whether `get_bedrock_client` produced a
      client and what the remote call did. Every failure is an error text
      with an empty citation list; a complete answer carries its text and one
      record per retrieved reference. */
  method QueryKnowledgeBase(clientAvailable: bool, outcome: CallOutcome) returns (answer: string, citations: seq<Citation>)
    ensures !clientAvailable ==> answer == ClientInitError && citations == []
    ensures clientAvailable && outcome.ServiceError? ==>
      answer == "AWS Error (" + outcome.code + "): " + outcome.message && citations == []
    ensures clientAvailable && outcome.Failed? ==>
      answer == QueryErrorPrefix + outcome.description && citations == []
    ensures clientAvailable && outcome.Responded? && GeneratedText(outcome.response).Failure? ==>
      answer == QueryErrorPrefix + GeneratedText(outcome.response).error && citations == []
    ensures clientAvailable && outcome.Responded? && GeneratedText(outcome.response).Success? ==>
      && answer == GeneratedText(outcome.response).value
      && |citations| == |RetrievedReferences(outcome.response)|
      && forall k :: 0 <= k < |citations| ==> citations[k] == CitationOf(RetrievedReferences(outcome.response)[k])
    ensures citations != [] ==>
      clientAvailable && outcome.Responded? && GeneratedText(outcome.response).Success?
  {
    if !clientAvailable {
      return ClientInitError, [];
    }
    match outcome {
      case ServiceError(code, message) =>
        answer, citations := "AWS Error (" + code + "): " + message, [];
      case Failed(description) =>
        answer, citations := QueryErrorPrefix + description, [];
      case Responded(response) =>
        match GeneratedText(response) {
          case Failure(key) =>
            answer, citations := QueryErrorPrefix + key, [];
          case Success(text) =>
            answer := text;
            citations := ExtractCitations(response);
        }
    }
  }
}
