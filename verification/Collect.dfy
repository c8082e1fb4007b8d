/**
 Collecting from an Atlassian site: the two offset-pagination rules, the permission gate and
 the loop that drives them, against a server that serves slices of a finite list.
 */
module Collect {
  import opened Options

  datatype Product = Confluence | Jira

  datatype Fidelity = Authoritative | BestEffort | Unavailable

  /** A document and what the restriction endpoint answers for it. */
  datatype Document = Document(id: string, status: int, principals: seq<string>)

  /** A server holds the documents in order and returns at most `cap` of them per request. */
  datatype Server = Server(documents: seq<Document>, cap: nat)

  datatype Page = Page(documents: seq<Document>, next: Option<nat>)

  function Limit(product: Product): nat {
    if product.Confluence? then 25 else 50
  }

  function Min(a: nat, b: nat): nat {
    if a <= b then a else b
  }

  function Serve(server: Server, start: nat, limit: nat): seq<Document> {
    var from := Min(start, |server.documents|);
    server.documents[from..Min(from + Min(limit, server.cap), |server.documents|)]
  }

  // ----- any connector -----

  /** What the framework knows of a connector: pages by offset, permissions, and a bound on the offsets. */
  datatype Source = Source(list: nat -> Page, permissions: Document -> Fidelity, size: nat)

  /** Offsets grow and are bounded, so paging ends. */
  ghost predicate Ends(source: Source) {
    forall start: nat :: source.list(start).next.Some? ==> start < source.list(start).next.value <= source.size
  }

  /** Everything listed from an offset on. */
  ghost function ListingFrom(source: Source, start: nat): seq<Document>
    requires Ends(source)
    decreases source.size - start
  {
    var page := source.list(start);
    match page.next
    case None => page.documents
    case Some(next) => page.documents + ListingFrom(source, next)
  }

  /** The number of listing requests from an offset on. */
  ghost function CallsFrom(source: Source, start: nat): nat
    requires Ends(source)
    decreases source.size - start
  {
    match source.list(start).next
    case None => 1
    case Some(next) => 1 + CallsFrom(source, next)
  }

  predicate Passes(source: Source, acknowledged: bool, d: Document) {
    source.permissions(d) != Unavailable || acknowledged
  }

  // ----- the loop -----

  datatype Request = Permissions(document: Document) | Bytes(document: Document)

  /** For documents that pass: permissions first, then the bytes. */
  function Both(documents: seq<Document>): seq<Request> {
    if documents == [] then []
    else
      var last := documents[|documents| - 1];
      Both(documents[..|documents| - 1]) + [Permissions(last), Bytes(last)]
  }

  lemma BothSnoc(documents: seq<Document>, d: Document)
    ensures Both(documents + [d]) == Both(documents) + [Permissions(d), Bytes(d)]
  {
    assert (documents + [d])[..|documents|] == documents;
  }

  lemma {:induction false} BothOfConcat(a: seq<Document>, b: seq<Document>)
    ensures Both(a + b) == Both(a) + Both(b)
  {
    if b == [] {
      assert a + b == a;
    } else {
      var front, last := b[..|b| - 1], b[|b| - 1];
      assert b == front + [last] && a + b == (a + front) + [last];
      BothOfConcat(a, front);
      BothSnoc(a + front, last);
      BothSnoc(front, last);
    }
  }

  /** What the loop may hand out and request for a list of documents. */
  predicate GatedPrefix(source: Source, acknowledged: bool, listing: seq<Document>,
                        items: seq<Document>, requests: seq<Request>, blocked: bool) {
    && (forall d | d in items :: Passes(source, acknowledged, d))
    && if blocked then
         && |items| < |listing| && items == listing[..|items|]
         && !Passes(source, acknowledged, listing[|items|])
         && requests == Both(items) + [Permissions(listing[|items|])]
       else items == listing && requests == Both(items)
  }

  /** One page of the loop. */
  method CollectPage(source: Source, acknowledged: bool, documents: seq<Document>)
    returns (items: seq<Document>, requests: seq<Request>, blocked: bool)
    ensures GatedPrefix(source, acknowledged, documents, items, requests, blocked)
  {
    items, requests, blocked := [], [], false;
    for i := 0 to |documents|
      invariant items == documents[..i] && requests == Both(items)
      invariant forall d | d in items :: Passes(source, acknowledged, d)
    {
      var d := documents[i];
      requests := requests + [Permissions(d)];
      if source.permissions(d) == Unavailable && !acknowledged {
        blocked := true;
        return;
      }
      requests := requests + [Bytes(d)];
      BothSnoc(items, d);
      items := items + [d];
    }
  }

  lemma PrefixGrows(source: Source, acknowledged: bool, done: seq<Document>, page: seq<Document>, rest: seq<Document>,
                    items: seq<Document>, requests: seq<Request>, blocked: bool)
    requires forall d | d in done :: Passes(source, acknowledged, d)
    requires GatedPrefix(source, acknowledged, page, items, requests, blocked)
    ensures blocked ==> GatedPrefix(source, acknowledged, done + page + rest, done + items, Both(done) + requests, true)
    ensures !blocked ==>
              && done + items == done + page && Both(done) + requests == Both(done + page)
              && forall d | d in done + page :: Passes(source, acknowledged, d)
  {
    BothOfConcat(done, items);
    if blocked {
      var listing := done + page + rest;
      assert listing[|done + items|] == page[|items|];
      assert listing[..|done + items|] == done + items;
      assert Both(done) + requests == Both(done + items) + [Permissions(page[|items|])];
    }
  }

  /** Between pages: everything so far has passed and been handed out, the rest is still to be listed. */
  ghost predicate BetweenPages(source: Source, acknowledged: bool, start: nat, items: seq<Document>,
                               requests: seq<Request>)
    requires Ends(source)
  {
    && ListingFrom(source, 0) == items + ListingFrom(source, start)
    && requests == Both(items)
    && forall d | d in items :: Passes(source, acknowledged, d)
  }

  lemma PageStep(source: Source, acknowledged: bool, start: nat, done: seq<Document>, asked: seq<Request>,
                 items: seq<Document>, requests: seq<Request>, blocked: bool)
    requires Ends(source) && BetweenPages(source, acknowledged, start, done, asked)
    requires GatedPrefix(source, acknowledged, source.list(start).documents, items, requests, blocked)
    ensures blocked || source.list(start).next.None? ==>
              GatedPrefix(source, acknowledged, ListingFrom(source, 0), done + items, asked + requests, blocked)
    ensures !blocked && source.list(start).next.Some? ==>
              BetweenPages(source, acknowledged, source.list(start).next.value, done + items, asked + requests)
  {
    var page := source.list(start);
    var rest := if page.next.Some? then ListingFrom(source, page.next.value) else [];
    assert ListingFrom(source, 0) == done + page.documents + rest;
    PrefixGrows(source, acknowledged, done, page.documents, rest, items, requests, blocked);
  }

  /**
   Yields exactly the listed documents before the first one the gate stops. Bytes are only
   requested for documents whose permissions passed; the stopped document is never downloaded.
   */
  method CollectAll(source: Source, acknowledged: bool)
    returns (items: seq<Document>, requests: seq<Request>, calls: nat, blocked: bool)
    requires Ends(source)
    ensures GatedPrefix(source, acknowledged, ListingFrom(source, 0), items, requests, blocked)
    ensures if blocked then calls <= CallsFrom(source, 0) else calls == CallsFrom(source, 0)
  {
    items, requests, calls, blocked := [], [], 1, false;
    ghost var start := 0;
    var page := Some(source.list(0));
    while page.Some?
      invariant page.Some? ==>
        && page.value == source.list(start) && !blocked
        && BetweenPages(source, acknowledged, start, items, requests)
        && CallsFrom(source, 0) == calls - 1 + CallsFrom(source, start)
      invariant page.None? ==>
        && GatedPrefix(source, acknowledged, ListingFrom(source, 0), items, requests, blocked)
        && CallsFrom(source, 0) == calls && !blocked
      decreases page.Some?, source.size - start
    {
      var gated, asked, stopped := CollectPage(source, acknowledged, page.value.documents);
      PageStep(source, acknowledged, start, items, requests, gated, asked, stopped);
      items, requests, blocked := items + gated, requests + asked, stopped;
      if stopped {
        return;
      }
      if page.value.next.Some? {
        start := page.value.next.value;
        page := Some(source.list(page.value.next.value));
        calls := calls + 1;
      } else {
        page := None;
      }
    }
  }

  // ----- the Atlassian connector -----

  /** Confluence goes on after a full page; Jira goes on while the next offset is below the total. */
  function ListDocuments(product: Product, server: Server, start: nat): Page {
    var documents := Serve(server, start, Limit(product));
    var more :=
      match product
      case Confluence => |documents| == 25
      case Jira => start + 50 < |server.documents|;
    Page(documents, if more then Some(start + Limit(product)) else None)
  }

  /** Jira never has a usable ACL; an empty Confluence restriction list means inherited permissions. */
  function FetchPermissions(product: Product, d: Document): Fidelity {
    if product.Jira? then Unavailable
    else if d.status != 200 then Unavailable
    else if d.principals == [] then BestEffort
    else Authoritative
  }

  function Atlassian(product: Product, server: Server): Source {
    Source((start: nat) => ListDocuments(product, server, start), d => FetchPermissions(product, d), |server.documents|)
  }

  lemma AtlassianEnds(product: Product, server: Server)
    ensures Ends(Atlassian(product, server))
  {
  }

  lemma {:induction false} FullPagesListAll(product: Product, server: Server, start: nat)
    requires Ends(Atlassian(product, server))
    requires server.cap >= Limit(product) && start <= |server.documents|
    ensures ListingFrom(Atlassian(product, server), start) == server.documents[start..]
    decreases |server.documents| - start
  {
    var page := ListDocuments(product, server, start);
    if page.next.Some? {
      FullPagesListAll(product, server, page.next.value);
    }
  }

  lemma {:induction false} ListingIsNoLonger(product: Product, server: Server, start: nat)
    requires Ends(Atlassian(product, server)) && start <= |server.documents|
    ensures |ListingFrom(Atlassian(product, server), start)| <= |server.documents| - start
    decreases |server.documents| - start
  {
    var page := ListDocuments(product, server, start);
    if page.next.Some? {
      ListingIsNoLonger(product, server, page.next.value);
    }
  }

  /**
   The listing is the whole list, each document once and in order, if and only if the server's
   pages are as long as the connector assumes or everything fits on its first page.
   */
  lemma ListsEverythingExactly(product: Product, server: Server)
    ensures Ends(Atlassian(product, server))
    ensures ListingFrom(Atlassian(product, server), 0) == server.documents
       <==> server.cap >= Limit(product) || |server.documents| <= server.cap
  {
    AtlassianEnds(product, server);
    var page := ListDocuments(product, server, 0);
    if server.cap >= Limit(product) {
      FullPagesListAll(product, server, 0);
    } else if page.next.Some? {
      ListingIsNoLonger(product, server, page.next.value);
    }
  }

  /** A short-paged Confluence is cut off after one page; nothing reports it. */
  lemma ShortPagesStopConfluence(server: Server)
    requires server.cap < 25
    ensures Ends(Atlassian(Confluence, server))
    ensures ListingFrom(Atlassian(Confluence, server), 0) == server.documents[..Min(server.cap, |server.documents|)]
    ensures CallsFrom(Atlassian(Confluence, server), 0) == 1
  {
    AtlassianEnds(Confluence, server);
  }

  lemma {:induction false} ConfluenceCallsFrom(server: Server, start: nat)
    requires Ends(Atlassian(Confluence, server))
    requires server.cap >= 25 && start <= |server.documents|
    ensures CallsFrom(Atlassian(Confluence, server), start) == (|server.documents| - start) / 25 + 1
    decreases |server.documents| - start
  {
    var page := ListDocuments(Confluence, server, start);
    if page.next.Some? {
      ConfluenceCallsFrom(server, page.next.value);
    }
  }

  lemma {:induction false} JiraCallsFrom(server: Server, start: nat)
    requires Ends(Atlassian(Jira, server)) && start < |server.documents|
    ensures CallsFrom(Atlassian(Jira, server), start) == (|server.documents| - start + 49) / 50
    decreases |server.documents| - start
  {
    var page := ListDocuments(Jira, server, start);
    if page.next.Some? {
      JiraCallsFrom(server, page.next.value);
    }
  }

  /**
   Confluence asks once more when the last page was full; Jira asks once per started fifty, and at
   least once.
   */
  lemma ListCallCounts(server: Server)
    ensures Ends(Atlassian(Confluence, server)) && Ends(Atlassian(Jira, server))
    ensures server.cap >= 25 ==> CallsFrom(Atlassian(Confluence, server), 0) == |server.documents| / 25 + 1
    ensures CallsFrom(Atlassian(Jira, server), 0)
         == if server.documents == [] then 1 else (|server.documents| + 49) / 50
  {
    AtlassianEnds(Confluence, server);
    AtlassianEnds(Jira, server);
    if server.cap >= 25 {
      ConfluenceCallsFrom(server, 0);
    }
    if server.documents != [] {
      JiraCallsFrom(server, 0);
    }
  }

  lemma FirstPasses(source: Source, acknowledged: bool, items: seq<Document>)
    requires forall d | d in items :: Passes(source, acknowledged, d)
    ensures items == [] || Passes(source, acknowledged, items[0])
  {
    if items != [] {
      assert items[0] in items;
    }
  }

  /** An unacknowledged run over a Jira project that lists anything stops at the first issue. */
  lemma JiraStopsAtOnce(server: Server, items: seq<Document>, requests: seq<Request>, blocked: bool)
    requires server.documents != [] && server.cap > 0
    requires Ends(Atlassian(Jira, server))
    requires GatedPrefix(Atlassian(Jira, server), false, ListingFrom(Atlassian(Jira, server), 0),
                         items, requests, blocked)
    ensures blocked && items == [] && requests == [Permissions(server.documents[0])]
  {
    var listing := ListingFrom(Atlassian(Jira, server), 0);
    assert listing != [] && listing[0] == server.documents[0];
    FirstPasses(Atlassian(Jira, server), false, items);
  }

  /** A page is authoritative with restrictions, best effort without, and unavailable when the lookup failed. */
  lemma ConfluenceFidelity(d: Document)
    ensures FetchPermissions(Confluence, d) == Unavailable <==> d.status != 200
    ensures FetchPermissions(Confluence, d) == BestEffort <==> d.status == 200 && d.principals == []
    ensures FetchPermissions(Confluence, d) == Authoritative <==> d.status == 200 && d.principals != []
  {
  }

  lemma {:induction false} BytesOf(documents: seq<Document>, d: Document)
    ensures Bytes(d) in Both(documents) <==> d in documents
  {
    if documents != [] {
      var front, last := documents[..|documents| - 1], documents[|documents| - 1];
      BytesOf(front, d);
      assert documents == front + [last];
    }
  }

  /**
   A Confluence run whose listing is complete is stopped if and only if it is not acknowledged and the
   restriction lookup fails for some page. It hands out the pages before the first such one, or all of
   them, and downloads exactly what it hands out.
   */
  lemma ConfluenceStopsExactly(server: Server, acknowledged: bool, items: seq<Document>, requests: seq<Request>,
                               blocked: bool)
    requires server.cap >= 25 || |server.documents| <= server.cap
    requires Ends(Atlassian(Confluence, server))
    requires GatedPrefix(Atlassian(Confluence, server), acknowledged,
                         ListingFrom(Atlassian(Confluence, server), 0), items, requests, blocked)
    ensures blocked <==> !acknowledged && exists d | d in server.documents :: d.status != 200
    ensures blocked ==>
              && |items| < |server.documents| && items == server.documents[..|items|]
              && server.documents[|items|].status != 200 && forall d | d in items :: d.status == 200
    ensures !blocked ==> items == server.documents
    ensures forall d :: Bytes(d) in requests <==> d in items
  {
    ListsEverythingExactly(Confluence, server);
    var source := Atlassian(Confluence, server);
    assert forall d :: Passes(source, acknowledged, d) <==> acknowledged || d.status == 200;
    forall d
      ensures Bytes(d) in requests <==> d in items
    {
      BytesOf(items, d);
    }
  }

  /** No bytes are requested before the document's permissions. */
  lemma {:induction false} PermissionsComeFirst(documents: seq<Document>, k: nat)
    requires k < |Both(documents)| && Both(documents)[k].Bytes?
    ensures k > 0 && Both(documents)[k - 1] == Permissions(Both(documents)[k].document)
  {
    var front := documents[..|documents| - 1];
    if k < |Both(front)| {
      PermissionsComeFirst(front, k);
    }
  }

  /** With acknowledgement everything any source lists is handed out. */
  lemma AcknowledgedTakesAll(source: Source, items: seq<Document>, requests: seq<Request>, blocked: bool)
    requires Ends(source) && GatedPrefix(source, true, ListingFrom(source, 0), items, requests, blocked)
    ensures !blocked && items == ListingFrom(source, 0)
  {
  }
}
