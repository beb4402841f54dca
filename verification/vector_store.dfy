/** Keeping the similarity index in step with the record store. The embedding
    service and the nearest-neighbour index are opaque: availability and the
    outcome of building are parameters, and a query's ranked hits are given as
    a sequence of document metadata. */
module VectorStore {
  import opened Wrappers
  import opened Text
  import opened Seqs
  import opened Models
  import opened Storage

  /** The metadata stored with each document. */
  datatype DocMeta = DocMeta(
    company: string,
    role: string,
    recruiter: string,
    interestLevel: int,
    active: bool,
    status: string,
    source: string,
    filename: string,
    timestamp: int)

  /** An indexed document: its text header lines and its metadata. */
  datatype Document = Document(header: seq<string>, meta: DocMeta)

  /** The index: absent, or built over a sequence of documents. */
  datatype Index = NoIndex | Built(docs: seq<Document>)

  /** `x or default` for an optional string. */
  function OrText(x: Option<string>, default: string): (r: string)
    ensures Filled(x) ==> r == x.value
    ensures !Filled(x) ==> r == default
  {
    if x.Some? && |x.value| > 0 then x.value else default
  }

  /** `str(n)` */
  function IntText(n: int): string {
    if n >= 0 then Decimal(n) else "-" + Decimal(-n)
  }

  /** The status shown in a document: `Active`, else the status, else `Inactive`. */
  function StatusText(o: Opportunity): (r: string)
    ensures o.active ==> r == "Active"
    ensures !o.active && Filled(o.status) ==> r == o.status.value
    ensures !o.active && !Filled(o.status) ==> r == "Inactive"
  {
    if o.active then "Active" else OrText(o.status, "Inactive")
  }

  /** `f"{caption}{x or default}"`: the line shows the value when it is a
      non-empty string and the default otherwise. */
  predicate Shows(line: string, caption: string, x: Option<string>, default: string) {
    && (Filled(x) ==> line == caption + x.value)
    && (!Filled(x) ==> line == caption + default)
  }

  /** One header line `f"{caption}{x or default}"`. */
  function Line(caption: string, x: Option<string>, default: string): (line: string)
    ensures Shows(line, caption, x, default)
  {
    caption + OrText(x, default)
  }

  // The captions of the header lines.
  const CompanyCaption := "Company: "
  const RoleCaption := "Role: "
  const RecruiterCaption := "Recruiter: "
  const ContactCaption := "Contact: "
  const StatusCaption := "Status: "
  const InterestCaption := "Interest Level: "
  const SourceCaption := "Source: "
  const NextStepsCaption := "Next Steps: "
  const NotesCaption := "Notes: "
  const DescriptionCaption := "Job Description: "
  const ResumeCaption := "Resume Used: "
  const CoverLetterCaption := "Cover Letter: "

  /** The fourteen header lines of a document, before the interaction lines:
      each field under its caption, with `Unknown` or `None` for an empty one. */
  predicate HeaderShows(o: Opportunity, h: seq<string>) {
    FrontShows(o, h) && BackShows(o, h)
  }

  /** Lines 0 to 6: who and where. */
  predicate FrontShows(o: Opportunity, h: seq<string>) {
    && |h| == 14
    && h[0] == CompanyCaption + o.company && h[1] == RoleCaption + o.role
    && Shows(h[2], RecruiterCaption, o.recruiterName, "Unknown")
    && Shows(h[3], ContactCaption, o.recruiterContact, "Unknown")
    && h[4] == StatusCaption + StatusText(o)
    && (o.interestLevel >= 0 ==> h[5] == InterestCaption + Decimal(o.interestLevel) + "/5")
    && Shows(h[6], SourceCaption, o.source, "Unknown")
  }

  /** Lines 7 to 13: the free-text fields and the start of the history. */
  predicate BackShows(o: Opportunity, h: seq<string>) {
    && |h| == 14
    && Shows(h[7], NextStepsCaption, o.nextSteps, "None")
    && Shows(h[8], NotesCaption, o.notes, "None")
    && Shows(h[9], DescriptionCaption, o.jobDescription, "None")
    && Shows(h[10], ResumeCaption, o.resumeText, "None")
    && Shows(h[11], CoverLetterCaption, o.coverLetterText, "None")
    && h[12] == "" && h[13] == "Interactions:"
  }

  /** The header lines of `_opportunity_to_document`. */
  function Header(o: Opportunity): seq<string> {
    [
      CompanyCaption + o.company,
      RoleCaption + o.role,
      Line(RecruiterCaption, o.recruiterName, "Unknown"),
      Line(ContactCaption, o.recruiterContact, "Unknown"),
      StatusCaption + StatusText(o),
      InterestCaption + IntText(o.interestLevel) + "/5",
      Line(SourceCaption, o.source, "Unknown"),
      Line(NextStepsCaption, o.nextSteps, "None"),
      Line(NotesCaption, o.notes, "None"),
      Line(DescriptionCaption, o.jobDescription, "None"),
      Line(ResumeCaption, o.resumeText, "None"),
      Line(CoverLetterCaption, o.coverLetterText, "None"),
      "",
      "Interactions:"]
  }

  lemma HeaderFront(o: Opportunity)
    ensures FrontShows(o, Header(o))
  {
  }

  lemma HeaderBack(o: Opportunity)
    ensures BackShows(o, Header(o))
  {
  }

  /** `_opportunity_to_document(o, filename)`, without the interaction lines. */
  function ToDocument(o: Opportunity, filename: string): (d: Document)
    ensures d.meta.filename == filename
    ensures d.meta.company == o.company && d.meta.role == o.role
    ensures d.meta.recruiter == (if o.recruiterName.Some? then o.recruiterName.value else "")
    ensures d.meta.status == (if o.status.Some? then o.status.value else "")
    ensures d.meta.source == (if o.source.Some? then o.source.value else "")
    ensures d.meta.interestLevel == o.interestLevel && d.meta.active == o.active
    ensures d.meta.timestamp == o.timestamp
    ensures HeaderShows(o, d.header)
  {
    var header := Header(o);
    HeaderFront(o);
    HeaderBack(o);
    var meta := DocMeta(
      o.company, o.role,
      o.recruiterName.GetOr(""),
      o.interestLevel, o.active,
      o.status.GetOr(""),
      o.source.GetOr(""),
      filename, o.timestamp);
    Document(header, meta)
  }

  /** The documents `build_index` gathers: each listed file is loaded again and
      converted; a file that no longer loads is skipped. */
  function Documents(dir: Directory, listing: seq<Entry>): (docs: seq<Document>)
    ensures |docs| <= |listing|
    ensures forall i :: 0 <= i < |docs| ==>
      Load(dir, docs[i].meta.filename).Some?
      && docs[i] == ToDocument(Load(dir, docs[i].meta.filename).value, docs[i].meta.filename)
  {
    if |listing| == 0 then []
    else
      var rest := Documents(dir, listing[1..]);
      var here := Load(dir, listing[0].filename);
      if here.Some? then [ToDocument(here.value, listing[0].filename)] + rest else rest
  }

  /** When every listed row still loads, there is exactly one document per row,
      in listing order. */
  lemma {:induction false} DocumentsOfListing(dir: Directory, listing: seq<Entry>)
    requires forall i :: 0 <= i < |listing| ==> Listed(dir, listing[i])
    ensures |Documents(dir, listing)| == |listing|
    ensures forall i :: 0 <= i < |listing| ==>
      Documents(dir, listing)[i] == ToDocument(listing[i].opp, listing[i].filename)
  {
    if |listing| > 0 {
      DocumentsOfListing(dir, listing[1..]);
      var rest := Documents(dir, listing[1..]);
      assert Load(dir, listing[0].filename) == Some(listing[0].opp);
      var docs := Documents(dir, listing);
      assert docs == [ToDocument(listing[0].opp, listing[0].filename)] + rest;
      forall i | 0 <= i < |listing|
        ensures docs[i] == ToDocument(listing[i].opp, listing[i].filename)
      {
        if i > 0 {
          assert docs[i] == rest[i - 1] && listing[i] == listing[1..][i - 1];
        }
      }
    }
  }

  /** What building the index does once documents are handed to the provider. */
  datatype BuildOutcome =
    | Stored        // index built and saved
    | EmbedFailed   // building raised: the old index stays
    | SaveFailed    // built, but saving raised: the new index is in memory

  /** What constructing the store leaves for `build_index`: the module flag
      `VECTOR_AVAILABLE` and whether `self.embedding_model` was assigned. */
  datatype Provider = Provider(flag: bool, embeddings: bool)

  /** The constructor: `importsOk` when the module-level imports succeeded,
      `embeddingsOk` when creating the embedding model did. Creating the model
      also sets the flag; a failure is caught and leaves the attribute unset. */
  function Construct(importsOk: bool, embeddingsOk: bool): Provider {
    Provider(importsOk || embeddingsOk, embeddingsOk)
  }

  /** The exception `build_index` lets escape: reading `self.embedding_model`
      when the constructor never assigned it. */
  datatype BuildError = MissingEmbeddings

  /** The `try` block of `build_index()`: the success flag and the index
      afterwards. */
  function RebuildIndex(dir: Directory, order: seq<string>, current: Index, outcome: BuildOutcome)
    : (r: (bool, Index))
    requires IsEnumeration(dir, order)
    ensures |ListOpportunities(dir, order)| == 0 ==> r == (false, current)
    ensures r.0 <==> |ListOpportunities(dir, order)| > 0 && outcome == Stored
    ensures r.0 ==> r.1 == Built(Documents(dir, ListOpportunities(dir, order)))
    ensures outcome == SaveFailed && |ListOpportunities(dir, order)| > 0 ==>
      r.1 == Built(Documents(dir, ListOpportunities(dir, order)))
    ensures outcome == EmbedFailed ==> r == (false, current)
  {
    var listing := ListOpportunities(dir, order);
    if |listing| == 0 then (false, current)
    else
      var docs := Documents(dir, listing);
      DocumentsOfListing(dir, listing);
      if |docs| == 0 then (false, current)
      else
        match outcome
        case Stored => (true, Built(docs))
        case EmbedFailed => (false, current)
        case SaveFailed => (false, Built(docs))
  }

  /** `build_index()`: the availability test, which raises when the embedding
      model was never assigned, then the `try` block. */
  function BuildIndex(p: Provider, dir: Directory, order: seq<string>, current: Index, outcome: BuildOutcome)
    : (r: Result<(bool, Index), BuildError>)
    requires IsEnumeration(dir, order)
    ensures r.Failure? <==> p.flag && !p.embeddings
    ensures !p.flag ==> r == Success((false, current))
    ensures p.flag && p.embeddings ==> r == Success(RebuildIndex(dir, order, current, outcome))
  {
    if !p.flag then Success((false, current))
    else if !p.embeddings then Failure(MissingEmbeddings)
    else Success(RebuildIndex(dir, order, current, outcome))
  }

  /** A store whose embedding model was created never raises from
      `build_index`; one whose imports succeeded but whose model was not
      created always does; with neither it reports failure. */
  lemma ConstructedBuild(importsOk: bool, embeddingsOk: bool, dir: Directory, order: seq<string>, current: Index, outcome: BuildOutcome)
    requires IsEnumeration(dir, order)
    ensures embeddingsOk ==> BuildIndex(Construct(importsOk, embeddingsOk), dir, order, current, outcome).Success?
    ensures importsOk && !embeddingsOk ==>
      BuildIndex(Construct(importsOk, embeddingsOk), dir, order, current, outcome) == Failure(MissingEmbeddings)
    ensures !importsOk && !embeddingsOk ==>
      BuildIndex(Construct(importsOk, embeddingsOk), dir, order, current, outcome) == Success((false, current))
  {
  }

  /** A successful build indexes every loadable record file exactly once. */
  lemma BuildIndexesEveryRecord(dir: Directory, order: seq<string>, current: Index, outcome: BuildOutcome)
    requires IsEnumeration(dir, order)
    ensures var r := RebuildIndex(dir, order, current, outcome);
      r.0 ==> r.1.Built? && var docs := r.1.docs;
      (forall name :: name in dir && IsJsonName(name) && Load(dir, name).Some? ==>
        exists i :: 0 <= i < |docs| && docs[i].meta.filename == name)
      && (forall i, j :: 0 <= i < j < |docs| ==> docs[i].meta.filename != docs[j].meta.filename)
  {
    var listing := ListOpportunities(dir, order);
    DocumentsCover(dir, listing);
  }

  lemma DocumentsCover(dir: Directory, listing: seq<Entry>)
    requires forall i :: 0 <= i < |listing| ==> Listed(dir, listing[i])
    requires forall name :: name in dir && IsJsonName(name) && Load(dir, name).Some? ==>
      Entry(name, Load(dir, name).value) in listing
    requires forall i, j :: 0 <= i < j < |listing| ==> listing[i].filename != listing[j].filename
    ensures var docs := Documents(dir, listing);
      (forall name :: name in dir && IsJsonName(name) && Load(dir, name).Some? ==>
        exists i :: 0 <= i < |docs| && docs[i].meta.filename == name)
      && (forall i, j :: 0 <= i < j < |docs| ==> docs[i].meta.filename != docs[j].meta.filename)
  {
    DocumentsOfListing(dir, listing);
    var docs := Documents(dir, listing);
    forall name | name in dir && IsJsonName(name) && Load(dir, name).Some?
      ensures exists i :: 0 <= i < |docs| && docs[i].meta.filename == name
    {
      var e := Entry(name, Load(dir, name).value);
      var k :| 0 <= k < |listing| && listing[k] == e;
      assert docs[k].meta.filename == name;
    }
  }

  /** `update_index()` */
  function UpdateIndex(p: Provider, dir: Directory, order: seq<string>, current: Index, outcome: BuildOutcome)
    : (r: Result<(bool, Index), BuildError>)
    requires IsEnumeration(dir, order)
    ensures r == BuildIndex(p, dir, order, current, outcome)
  {
    BuildIndex(p, dir, order, current, outcome)
  }

  /** A search hit: the loaded record and its file name. */
  datatype SearchResult = SearchResult(opp: Opportunity, filename: string)

  /** The filters a caller may pass; the search never consults them. */
  type Filters = map<string, bool>

  /** Converts the provider's ranked hits: hits whose file does not load are dropped. */
  function Resolve(dir: Directory, hits: seq<DocMeta>): (r: seq<SearchResult>)
    ensures |r| <= |hits|
    ensures forall i :: 0 <= i < |r| ==> Load(dir, r[i].filename) == Some(r[i].opp)
    ensures forall i :: 0 <= i < |hits| && Load(dir, hits[i].filename).Some? ==>
      SearchResult(Load(dir, hits[i].filename).value, hits[i].filename) in r
  {
    if |hits| == 0 then []
    else
      var rest := Resolve(dir, hits[1..]);
      var here := Load(dir, hits[0].filename);
      if here.Some? then [SearchResult(here.value, hits[0].filename)] + rest else rest
  }

  /** The file names of the hits that resolve, in the provider's order. */
  lemma {:induction false} ResolveKeepsOrder(dir: Directory, hits: seq<DocMeta>)
    ensures IsSubsequence(Names(Resolve(dir, hits)), HitNames(hits))
  {
    if |hits| > 0 {
      ResolveKeepsOrder(dir, hits[1..]);
      var r := Resolve(dir, hits);
      if Load(dir, hits[0].filename).Some? {
        assert Names(r)[1..] == Names(Resolve(dir, hits[1..]));
        assert HitNames(hits)[1..] == HitNames(hits[1..]);
      } else {
        assert HitNames(hits)[1..] == HitNames(hits[1..]);
        SubsequenceOfTail(Names(r), HitNames(hits));
      }
    }
  }

  function Names(r: seq<SearchResult>): (n: seq<string>)
    ensures |n| == |r| && forall i :: 0 <= i < |r| ==> n[i] == r[i].filename
  {
    if |r| == 0 then [] else [r[0].filename] + Names(r[1..])
  }

  /** The file names the hits point at, in ranking order. */
  function HitNames(hits: seq<DocMeta>): seq<string> {
    seq(|hits|, i requires 0 <= i < |hits| => hits[i].filename)
  }

  /** `search(query, k, filters)`: `hits` is what the provider returns for the
      query and `k`, or `None` when it raises. */
  function Search(index: Index, dir: Directory, hits: Option<seq<DocMeta>>, filters: Filters): (r: seq<SearchResult>)
    ensures index.NoIndex? || hits.None? ==> r == []
    ensures hits.Some? ==> |r| <= |hits.value|
    ensures forall i :: 0 <= i < |r| ==> Load(dir, r[i].filename) == Some(r[i].opp)
    ensures index.Built? && hits.Some? ==> r == Resolve(dir, hits.value)
  {
    if index.NoIndex? then []
    else if hits.None? then []
    else Resolve(dir, hits.value)
  }

  /** The filter argument changes nothing. */
  lemma SearchIgnoresFilters(index: Index, dir: Directory, hits: Option<seq<DocMeta>>, f: Filters, g: Filters)
    ensures Search(index, dir, hits, f) == Search(index, dir, hits, g)
  {
  }

  /** `search_active_opportunities(query, k)` */
  function SearchActive(index: Index, dir: Directory, hits: Option<seq<DocMeta>>): (r: seq<SearchResult>)
    ensures r == Search(index, dir, hits, map[])
  {
    Search(index, dir, hits, map["active" := true])
  }

  /** `[x for x in s if lo <= x.interest_level <= hi]` */
  function InInterestRange(s: seq<SearchResult>, lo: int, hi: int): (r: seq<SearchResult>)
    ensures |r| <= |s|
    ensures forall i :: 0 <= i < |r| ==> lo <= r[i].opp.interestLevel <= hi && r[i] in s
    ensures forall i :: 0 <= i < |s| && lo <= s[i].opp.interestLevel <= hi ==> s[i] in r
    ensures IsSubsequence(r, s)
  {
    var p := (x: SearchResult) => lo <= x.opp.interestLevel <= hi;
    FilterIsSubsequence(s, p);
    Filter(s, p)
  }

  /** `search_by_interest_level(lo, hi, k)`: `hits` answers the empty query with
      `k = 100`. */
  function SearchByInterestLevel(index: Index, dir: Directory, hits: Option<seq<DocMeta>>, lo: int, hi: int, k: int)
    : (r: seq<SearchResult>)
    ensures k >= 0 ==> |r| <= k
    ensures forall i :: 0 <= i < |r| ==> lo <= r[i].opp.interestLevel <= hi
    ensures IsSubsequence(r, Search(index, dir, hits, map[]))
    ensures var f := InInterestRange(Search(index, dir, hits, map[]), lo, hi);
      && |r| <= |f| && r == f[..|r|]
      && (k >= 0 ==> |r| == if k <= |f| then k else |f|)
      && (k < 0 ==> |r| == if |f| + k >= 0 then |f| + k else 0)
  {
    var all := Search(index, dir, hits, map[]);
    var inRange := InInterestRange(all, lo, hi);
    var r := PyPrefix(inRange, k);
    PrefixIsSubsequence(inRange, |r|);
    SubsequenceTransitive(r, inRange, all);
    r
  }

  // ---------------------------------------------------------------------------
  // Removing one document

  /** A stored document: its identifier and its metadata. */
  datatype StoredDoc = StoredDoc(id: string, meta: DocMeta)

  /** The first position whose metadata names `filename`, if any. */
  function FirstMatch(entries: seq<StoredDoc>, filename: string): (r: Option<nat>)
    ensures r.Some? ==> (
      && r.value < |entries| && entries[r.value].meta.filename == filename
      && forall j :: 0 <= j < r.value ==> entries[j].meta.filename != filename)
    ensures r.None? ==> forall j :: 0 <= j < |entries| ==> entries[j].meta.filename != filename
  {
    if |entries| == 0 then None
    else if entries[0].meta.filename == filename then Some(0)
    else
      var rest := FirstMatch(entries[1..], filename);
      if rest.Some? then Some(rest.value + 1) else None
  }

  /** `_remove_document_by_filename(filename)` over the stored documents, or
      `None` when there is no index. */
  function RemoveDocumentByFilename(entries: Option<seq<StoredDoc>>, filename: string)
    : (r: (bool, Option<seq<StoredDoc>>))
    ensures entries.None? ==> r == (false, None)
    ensures entries.Some? ==>
      (r.0 <==> exists j :: 0 <= j < |entries.value| && entries.value[j].meta.filename == filename)
    ensures entries.Some? && !r.0 ==> r.1 == entries
    ensures entries.Some? && r.0 ==> r.1.Some? && |r.1.value| == |entries.value| - 1
    ensures entries.Some? && r.0 ==>
      var i := FirstMatch(entries.value, filename).value;
      r.1 == Some(entries.value[..i] + entries.value[i + 1..])
  {
    if entries.None? then (false, None)
    else
      match FirstMatch(entries.value, filename)
      case None => (false, entries)
      case Some(i) => (true, Some(entries.value[..i] + entries.value[i + 1..]))
  }

  /** The removal loop: scan in order and delete the first match only. */
  method RemoveFirstMatch(entries: seq<StoredDoc>, filename: string) returns (found: bool, rest: seq<StoredDoc>)
    ensures (found, Some(rest)) == RemoveDocumentByFilename(Some(entries), filename)
  {
    var i := 0;
    while i < |entries|
      invariant 0 <= i <= |entries|
      invariant forall j :: 0 <= j < i ==> entries[j].meta.filename != filename
    {
      if entries[i].meta.filename == filename {
        return true, entries[..i] + entries[i + 1..];
      }
      i := i + 1;
    }
    return false, entries;
  }

  /** Only one document goes, even when several carry the same file name. */
  lemma RemoveKeepsLaterDuplicates(entries: seq<StoredDoc>, filename: string, a: nat, b: nat)
    requires a < b < |entries|
    requires entries[a].meta.filename == filename && entries[b].meta.filename == filename
    ensures var r := RemoveDocumentByFilename(Some(entries), filename).1.value;
      exists j :: 0 <= j < |r| && r[j] == entries[b]
  {
    var i := FirstMatch(entries, filename).value;
    var r := RemoveDocumentByFilename(Some(entries), filename).1.value;
    assert i <= a;
    assert r[b - 1] == entries[b];
  }
}
