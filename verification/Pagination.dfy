/**
  The bounded page loops: `list_parts_all` and `list_multipart_uploads_all` of
  `src/client/multipart/listing.rs`, `list_objects_v2_all` of `src/client/object/listing.rs`.
 */
module Pagination {
  import opened Wire

  /** Where a page starts: after a marker, or else after a key given by the caller. */
  datatype Request<M> = Request(marker: Option<M>, startAfter: Option<Text>)

  datatype Page<T, M> = Page(items: seq<T>, truncated: bool, next: Option<M>)

  datatype ListError = ZeroBound | MissingMarker | RepeatedMarker | PageLimit | Remote(code: nat)

  type Fetch<!T, !M> = Request<M> -> Result<Page<T, M>, nat>

  /** Extra conditions a next marker must meet, given the current one. */
  type Advances<!M> = (Option<M>, M) -> bool

  // ----- the loop as a function ---------------------------------------------------------------

  /** A page in front of what the rest of the loop returns. */
  function Onto<T, M>(page: Page<T, M>, rest: Result<seq<Page<T, M>>, ListError>): Result<seq<Page<T, M>>, ListError> {
    match rest
    case Err(e) => Err(e)
    case Ok(more) => Ok([page] + more)
  }

  /** What the loop returns with n pages still allowed. */
  function Pages<T, M(==)>(fetch: Fetch<T, M>, advances: Advances<M>, request: Request<M>, seen: set<M>, n: nat)
    : Result<seq<Page<T, M>>, ListError>
    decreases n
  {
    if n == 0 then Err(PageLimit)
    else
      match fetch(request)
      case Err(code) => Err(Remote(code))
      case Ok(page) =>
        if !page.truncated then Ok([page])
        else if page.next.None? then Err(MissingMarker)
        else if !advances(request.marker, page.next.value) || page.next.value in seen then Err(RepeatedMarker)
        else Onto(page, Pages(fetch, advances, Request(page.next, None), seen + {page.next.value}, n - 1))
  }

  function InitialSeen<M>(request: Request<M>): set<M> {
    if request.marker.Some? then {request.marker.value} else {}
  }

  function ListAllResult<T, M(==)>(fetch: Fetch<T, M>, advances: Advances<M>, request: Request<M>, maximumPages: nat)
    : Result<seq<Page<T, M>>, ListError>
  {
    if maximumPages == 0 then Err(ZeroBound)
    else Pages(fetch, advances, request, InitialSeen(request), maximumPages)
  }

  // ----- the loop as code ------------------------------------------------------------------------

  /** Distinct requests: the loop never asks for the same place twice. */
  ghost predicate Distinct<M(!new)>(asked: seq<Request<M>>) {
    forall i, j :: 0 <= i < j < |asked| ==> asked[i].marker != asked[j].marker
  }

  /** The request to come is a new one, and the seen-set knows every marker used. */
  ghost predicate Unasked<M(!new)>(asked: seq<Request<M>>, request: Request<M>, seen: set<M>) {
    && (request.marker.Some? ==> request.marker.value in seen)
    && (|asked| > 0 ==> request.marker.Some?)
    && forall i :: 0 <= i < |asked| ==>
         asked[i].marker != request.marker && (asked[i].marker.Some? ==> asked[i].marker.value in seen)
  }

  lemma AskOnce<M(!new)>(asked: seq<Request<M>>, request: Request<M>, seen: set<M>)
    requires Distinct(asked) && Unasked(asked, request, seen)
    ensures Distinct(asked + [request])
  {
  }

  lemma AskNext<M(!new)>(asked: seq<Request<M>>, request: Request<M>, seen: set<M>, next: M)
    requires Unasked(asked, request, seen) && next !in seen
    ensures Unasked(asked + [request], Request(Some(next), None), seen + {next})
  {
  }

  /** Each request after the first uses a marker that advances from the one before it. */
  ghost predicate Linked<M(!new)>(advances: Advances<M>, asked: seq<Request<M>>) {
    forall i :: 0 < i < |asked| ==> asked[i].marker.Some? && advances(asked[i - 1].marker, asked[i].marker.value)
  }

  lemma LinkNext<M(!new)>(advances: Advances<M>, asked: seq<Request<M>>, request: Request<M>, next: Request<M>)
    requires Linked(advances, asked + [request])
    requires next.marker.Some? && advances(request.marker, next.marker.value)
    ensures Linked(advances, asked + [request] + [next])
  {
    var before, after := asked + [request], asked + [request] + [next];
    forall i | 0 < i < |after|
      ensures after[i].marker.Some? && advances(after[i - 1].marker, after[i].marker.value)
    {
      if i < |before| {
        assert after[i] == before[i] && after[i - 1] == before[i - 1];
      }
    }
  }

  lemma LinkedPrefix<M(!new)>(advances: Advances<M>, asked: seq<Request<M>>, request: Request<M>)
    requires Linked(advances, asked + [request])
    ensures Linked(advances, asked)
  {
    forall i | 0 < i < |asked| ensures asked[i].marker.Some? && advances(asked[i - 1].marker, asked[i].marker.value) {
      assert (asked + [request])[i] == asked[i] && (asked + [request])[i - 1] == asked[i - 1];
    }
  }

  /** Every page but the last one asked for was truncated and named the request after it. */
  ghost predicate Chained<T, M(!new)>(fetch: Fetch<T, M>, first: Request<M>, asked: seq<Request<M>>) {
    && (asked != [] ==> asked[0] == first)
    && forall i :: 0 < i < |asked| ==> Follows(fetch, asked[i - 1], asked[i])
  }

  ghost predicate Follows<T, M>(fetch: Fetch<T, M>, q: Request<M>, next: Request<M>) {
    && fetch(q).Ok? && fetch(q).value.truncated && fetch(q).value.next.Some?
    && next == Request(fetch(q).value.next, None)
  }

  /** A marker that some request so far has used. */
  ghost predicate Used<M(!new)>(asked: seq<Request<M>>, m: M) {
    exists i :: 0 <= i < |asked| && asked[i].marker == Some(m)
  }

  /** How a page loop must end, from the answer to the last request it made. */
  ghost predicate EndsRightly<T, M(!new)>(
    fetch: Fetch<T, M>, advances: Advances<M>, maximumPages: nat, r: Result<seq<Page<T, M>>, ListError>,
    asked: seq<Request<M>>)
  {
    if maximumPages == 0 then asked == [] && r == Err(ZeroBound)
    else
      && asked != []
      && var q := asked[|asked| - 1];
      match fetch(q)
      case Err(code) => r == Err(Remote(code))
      case Ok(page) =>
        if !page.truncated then r.Ok? && |r.value| == |asked|
        else if page.next.None? then r == Err(MissingMarker)
        else if !advances(q.marker, page.next.value) || Used(asked, page.next.value) then r == Err(RepeatedMarker)
        else r == Err(PageLimit) && |asked| == maximumPages
  }

  /** The seen-set holds the markers used so far, and the one about to be used. */
  ghost predicate Remembers<M(!new)>(asked: seq<Request<M>>, request: Request<M>, seen: set<M>) {
    forall m :: m in seen <==> Used(asked + [request], m)
  }

  lemma RememberNext<M(!new)>(asked: seq<Request<M>>, request: Request<M>, seen: set<M>, next: M)
    requires Remembers(asked, request, seen)
    ensures Remembers(asked + [request], Request(Some(next), None), seen + {next})
  {
    var before, after := asked + [request], asked + [request] + [Request(Some(next), None)];
    forall m ensures m in seen + {next} <==> Used(after, m) {
      if m in seen {
        var i :| 0 <= i < |before| && before[i].marker == Some(m);
        assert after[i] == before[i];
      }
      if m == next {
        assert after[|before|].marker == Some(m);
      }
      if Used(after, m) && m != next {
        var i :| 0 <= i < |after| && after[i].marker == Some(m);
        assert i < |before| && before[i] == after[i];
      }
    }
  }

  lemma SeenIsUsed<M(!new)>(asked: seq<Request<M>>, request: Request<M>, seen: set<M>)
    requires Remembers(asked, request, seen)
    ensures forall m :: m in seen <==> Used(asked + [request], m)
  {
  }

  lemma RememberFirst<M(!new)>(request: Request<M>)
    ensures Remembers([], request, InitialSeen(request))
  {
    var all := [] + [request];
    assert all == [request];
    if request.marker.Some? {
      assert all[0].marker == Some(request.marker.value);
    }
  }

  lemma ChainNext<T, M(!new)>(fetch: Fetch<T, M>, first: Request<M>, asked: seq<Request<M>>, next: Request<M>)
    requires asked != [] && Chained(fetch, first, asked) && Follows(fetch, asked[|asked| - 1], next)
    ensures Chained(fetch, first, asked + [next])
  {
    hide Follows;
    var all := asked + [next];
    forall i | 0 < i < |all| ensures Follows(fetch, all[i - 1], all[i]) {
      if i < |asked| {
        assert all[i - 1] == asked[i - 1] && all[i] == asked[i];
      }
    }
  }

  lemma ChainPrefix<T, M(!new)>(fetch: Fetch<T, M>, first: Request<M>, asked: seq<Request<M>>, next: Request<M>)
    requires Chained(fetch, first, asked + [next])
    ensures Chained(fetch, first, asked)
  {
    hide Follows;
    forall i | 0 < i < |asked| ensures Follows(fetch, asked[i - 1], asked[i]) {
      assert (asked + [next])[i - 1] == asked[i - 1] && (asked + [next])[i] == asked[i];
    }
    if asked != [] {
      assert (asked + [next])[0] == asked[0];
    }
  }

  lemma PagesStep<T, M>(fetch: Fetch<T, M>, advances: Advances<M>, request: Request<M>, seen: set<M>, n: nat)
    requires n > 0
    ensures var r := Pages(fetch, advances, request, seen, n);
            match fetch(request)
            case Err(code) => r == Err(Remote(code))
            case Ok(page) =>
              && (!page.truncated ==> r == Ok([page]))
              && (page.truncated && page.next.None? ==> r == Err(MissingMarker))
              && (page.truncated && page.next.Some? ==>
                    var next := page.next.value;
                    if !advances(request.marker, next) || next in seen then r == Err(RepeatedMarker)
                    else r == Onto(page, Pages(fetch, advances, Request(page.next, None), seen + {next}, n - 1)))
  {
  }

  lemma NoPages<T, M>(fetch: Fetch<T, M>, advances: Advances<M>, request: Request<M>, seen: set<M>)
    ensures Pages(fetch, advances, request, seen, 0) == Err(PageLimit)
  {
  }

  /** The shared shape of the three page loops. */
  method ListAll<T, M(==, !new)>(fetch: Fetch<T, M>, advances: Advances<M>, first: Request<M>, maximumPages: nat)
    returns (r: Result<seq<Page<T, M>>, ListError>, asked: seq<Request<M>>)
    ensures r == ListAllResult(fetch, advances, first, maximumPages)
    ensures |asked| <= maximumPages && Distinct(asked) && Linked(advances, asked)
    ensures Chained(fetch, first, asked) && EndsRightly(fetch, advances, maximumPages, r, asked)
    ensures r.Ok? ==>
              && |r.value| == |asked|
              && forall i :: 0 <= i < |asked| ==> fetch(asked[i]) == Ok(r.value[i])
  {
    hide Pages;
    asked := [];
    if maximumPages == 0 {
      return Err(ZeroBound), [];
    }
    var request := first;
    var seen := if request.marker.Some? then {request.marker.value} else {};
    var pages: seq<Page<T, M>> := [];
    var left := maximumPages;
    RememberFirst(request);
    ghost var last := request;
    assert After(pages, Pages(fetch, advances, request, seen, left)) == Pages(fetch, advances, request, seen, left) by {
      AfterNothing(Pages(fetch, advances, request, seen, left));
    }
    while left > 0
      invariant 0 <= left <= maximumPages && |asked| + left == maximumPages && |pages| == |asked|
      invariant Distinct(asked) && Unasked(asked, request, seen) && Linked(advances, asked + [request])
      invariant Remembers(asked, request, seen) && Chained(fetch, first, asked + [request])
      invariant asked != [] ==> last == asked[|asked| - 1] && Follows(fetch, last, request)
                                && advances(last.marker, request.marker.value) && !Used(asked, request.marker.value)
      invariant forall i :: 0 <= i < |asked| ==> fetch(asked[i]) == Ok(pages[i])
      invariant ListAllResult(fetch, advances, first, maximumPages)
             == After(pages, Pages(fetch, advances, request, seen, left))
    {
      hide Distinct, Unasked, Linked, Remembers, Chained, Used;
      SeenIsUsed(asked, request, seen);
      PagesStep(fetch, advances, request, seen, left);
      ghost var before := asked;
      AskOnce(asked, request, seen);
      asked := asked + [request];
      left := left - 1;
      var answer := fetch(request);
      if answer.Err? {
        return Err(Remote(answer.error)), asked;
      }
      var page := answer.value;
      if !page.truncated {
        return Ok(pages + [page]), asked;
      }
      if page.next.None? {
        return Err(MissingMarker), asked;
      }
      var next := page.next.value;
      if !advances(request.marker, next) || next in seen {
        return Err(RepeatedMarker), asked;
      }
      AfterSnoc(pages, page, Pages(fetch, advances, Request(page.next, None), seen + {next}, left));
      AskNext(before, request, seen, next);
      LinkNext(advances, before, request, Request(Some(next), None));
      RememberNext(before, request, seen, next);
      ChainNext(fetch, first, asked, Request(Some(next), None));
      last := request;
      pages := pages + [page];
      seen := seen + {next};
      request := Request(Some(next), None);
    }
    LinkedPrefix(advances, asked, request);
    ChainPrefix(fetch, first, asked, request);
    NoPages(fetch, advances, request, seen);
    return Err(PageLimit), asked;
  }

  function After<T, M>(pages: seq<Page<T, M>>, rest: Result<seq<Page<T, M>>, ListError>)
    : Result<seq<Page<T, M>>, ListError>
  {
    match rest
    case Err(e) => Err(e)
    case Ok(more) => Ok(pages + more)
  }

  lemma AfterNothing<T, M>(rest: Result<seq<Page<T, M>>, ListError>)
    ensures After([], rest) == rest
  {
    if rest.Ok? {
      assert [] + rest.value == rest.value;
    }
  }

  lemma AfterSnoc<T, M>(pages: seq<Page<T, M>>, page: Page<T, M>, rest: Result<seq<Page<T, M>>, ListError>)
    ensures After(pages + [page], rest) ==
            After(pages, Onto(page, rest))
  {
    if rest.Ok? {
      assert pages + [page] + rest.value == pages + ([page] + rest.value);
    }
  }

  // ----- faithful servers ----------------------------------------------------------------------------

  function Items<T, M>(pages: seq<Page<T, M>>): seq<T> {
    if pages == [] then [] else pages[0].items + Items(pages[1..])
  }

  /**
    A server that pages through one fixed listing, seen through the requests it recognises: each page
    is a run of the listing, and a truncated page names a place it will recognise, where the next page
    starts, and which is further on in the server's own order (so that truncated pages without items
    are allowed). To a marker it never issued it may answer anything, an error included.
   */
  datatype Server<!T, !M> = Server(
    fetch: Fetch<T, M>,
    known: Request<M> -> bool,
    listing: seq<T>,
    position: Request<M> -> nat,
    rank: Request<M> -> nat)

  ghost predicate Faithful<T(!new), M(!new)>(server: Server<T, M>, advances: Advances<M>) {
    && (forall m: M, s :: server.rank(Request(Some(m), s)) == server.rank(Request(Some(m), None)))
    && (forall q: Request<M> :: server.known(q) ==> Serves(server, advances, q))
  }

  ghost predicate Serves<T, M>(server: Server<T, M>, advances: Advances<M>, q: Request<M>) {
    && server.fetch(q).Ok?
    && var page, from := server.fetch(q).value, server.position(q);
    && from + |page.items| <= |server.listing|
    && page.items == server.listing[from..from + |page.items|]
    && (if page.truncated then
          && page.next.Some?
          && var next := Request(page.next, None);
          && server.known(next)
          && server.position(next) == from + |page.items|
          && server.rank(next) > server.rank(q)
          && advances(q.marker, page.next.value)
        else from + |page.items| == |server.listing|)
  }

  lemma {:induction false} FaithfulPages<T(!new), M(!new)>(
    server: Server<T, M>, advances: Advances<M>, request: Request<M>, seen: set<M>, n: nat)
    requires Faithful(server, advances) && server.known(request)
    requires forall m :: m in seen ==> server.rank(Request(Some(m), None)) <= server.rank(request)
    ensures server.position(request) <= |server.listing|
    ensures match Pages(server.fetch, advances, request, seen, n)
            case Ok(pages) => Items(pages) == server.listing[server.position(request)..]
            case Err(e) => e == PageLimit
    decreases n
  {
    assert Serves(server, advances, request);
    if n > 0 {
      var page, listing := server.fetch(request).value, server.listing;
      var from := server.position(request);
      var to := from + |page.items|;
      if page.truncated {
        var next := Request(page.next, None);
        FaithfulPages(server, advances, next, seen + {page.next.value}, n - 1);
        var rest := Pages(server.fetch, advances, next, seen + {page.next.value}, n - 1);
        if rest.Ok? {
          var all := [page] + rest.value;
          assert all[1..] == rest.value;
          assert listing[from..to] + listing[to..] == listing[from..];
        }
      } else {
        assert [page][1..] == [];
        assert page.items + [] == listing[from..];
      }
    }
  }

  lemma InitialRank<T(!new), M(!new)>(server: Server<T, M>, advances: Advances<M>, request: Request<M>)
    requires Faithful(server, advances)
    ensures forall m :: m in InitialSeen(request) ==> server.rank(Request(Some(m), None)) <= server.rank(request)
  {
    if request.marker.Some? {
      assert server.rank(Request(Some(request.marker.value), request.startAfter))
          == server.rank(Request(request.marker, None));
      assert request == Request(Some(request.marker.value), request.startAfter);
    }
  }

  /** Against a faithful server the pages are exactly the remaining listing, or the page limit was too small. */
  lemma ListingIsComplete<T(!new), M(!new)>(
    server: Server<T, M>, advances: Advances<M>, request: Request<M>, maximumPages: nat)
    requires Faithful(server, advances) && server.known(request) && maximumPages > 0
    ensures server.position(request) <= |server.listing|
    ensures match ListAllResult(server.fetch, advances, request, maximumPages)
            case Ok(pages) => Items(pages) == server.listing[server.position(request)..]
            case Err(e) => e == PageLimit
  {
    InitialRank(server, advances, request);
    FaithfulPages(server, advances, request, InitialSeen(request), maximumPages);
  }

  /** Every truncated page of a recognised request brings something. */
  ghost predicate Productive<T(!new), M(!new)>(server: Server<T, M>) {
    forall q: Request<M> :: server.known(q) ==> PageIsProductive(server, q)
  }

  ghost predicate PageIsProductive<T, M>(server: Server<T, M>, q: Request<M>) {
    server.fetch(q).Ok? && server.fetch(q).value.truncated ==> server.fetch(q).value.items != []
  }

  lemma {:induction false} EnoughPages<T(!new), M(!new)>(
    server: Server<T, M>, advances: Advances<M>, request: Request<M>, seen: set<M>, n: nat)
    requires Faithful(server, advances) && Productive(server) && server.known(request)
    requires forall m :: m in seen ==> server.rank(Request(Some(m), None)) <= server.rank(request)
    requires n + server.position(request) > |server.listing|
    ensures Pages(server.fetch, advances, request, seen, n).Ok?
    decreases n
  {
    assert Serves(server, advances, request) && PageIsProductive(server, request);
    var page := server.fetch(request).value;
    if page.truncated {
      EnoughPages(server, advances, Request(page.next, None), seen + {page.next.value}, n - 1);
    }
  }

  /** More pages than remaining items always yield the whole listing, unless the server sends empty pages. */
  lemma EnoughPagesSucceed<T(!new), M(!new)>(
    server: Server<T, M>, advances: Advances<M>, request: Request<M>, maximumPages: nat)
    requires Faithful(server, advances) && Productive(server) && server.known(request)
    requires maximumPages + server.position(request) > |server.listing| && maximumPages > 0
    ensures var r := ListAllResult(server.fetch, advances, request, maximumPages);
            && r.Ok?
            && server.position(request) <= |server.listing|
            && Items(r.value) == server.listing[server.position(request)..]
  {
    InitialRank(server, advances, request);
    EnoughPages(server, advances, request, InitialSeen(request), maximumPages);
    ListingIsComplete(server, advances, request, maximumPages);
  }

  /** The limit is reported only when that many pages were really not enough. */
  lemma {:induction false} LimitMeansMorePages<T(!new), M(!new)>(
    fetch: Fetch<T, M>, advances: Advances<M>, request: Request<M>, seen: set<M>, n: nat)
    requires Pages(fetch, advances, request, seen, n) == Err(PageLimit)
    ensures forall k :: 0 <= k <= n ==> Pages(fetch, advances, request, seen, k) == Err(PageLimit)
    decreases n
  {
    if n > 0 {
      var next := fetch(request).value.next;
      LimitMeansMorePages(fetch, advances, Request(next, None), seen + {next.value}, n - 1);
      forall k | 0 <= k <= n ensures Pages(fetch, advances, request, seen, k) == Err(PageLimit) {
        if k > 0 {
          assert Pages(fetch, advances, Request(next, None), seen + {next.value}, k - 1) == Err(PageLimit);
        }
      }
    }
  }

  // ----- part listings --------------------------------------------------------------------------------

  /** `next <= current` is rejected. */
  const PARTS_ADVANCE: Advances<nat> := (current: Option<nat>, next: nat) => current.None? || next > current.value

  /** `list_multipart_uploads_all` and `list_objects_v2_all` rely on the seen-set alone. */
  function AnyMarker<M>(current: Option<M>, next: M): bool {
    true
  }

  /** The same loop without its seen-set. */
  function PartPages<T>(fetch: Fetch<T, nat>, request: Request<nat>, n: nat): Result<seq<Page<T, nat>>, ListError>
    decreases n
  {
    if n == 0 then Err(PageLimit)
    else
      match fetch(request)
      case Err(code) => Err(Remote(code))
      case Ok(page) =>
        if !page.truncated then Ok([page])
        else if page.next.None? then Err(MissingMarker)
        else if !PARTS_ADVANCE(request.marker, page.next.value) then Err(RepeatedMarker)
        else Onto(page, PartPages(fetch, Request(page.next, None), n - 1))
  }

  /** Against any server at all, `list_parts_all` would behave the same without its seen-set. */
  lemma {:induction false} SeenSetIsRedundant<T>(fetch: Fetch<T, nat>, request: Request<nat>, seen: set<nat>, n: nat)
    requires forall m :: m in seen ==> request.marker.Some? && m <= request.marker.value
    ensures Pages(fetch, PARTS_ADVANCE, request, seen, n) == PartPages(fetch, request, n)
    decreases n
  {
    if n > 0 && fetch(request).Ok? {
      var page := fetch(request).value;
      if page.truncated && page.next.Some? && PARTS_ADVANCE(request.marker, page.next.value) {
        SeenSetIsRedundant(fetch, Request(page.next, None), seen + {page.next.value}, n - 1);
      }
    }
  }

  lemma {:induction false} MarkersIncrease(asked: seq<Request<nat>>, i: nat, j: nat)
    requires Linked(PARTS_ADVANCE, asked) && i < j < |asked| && asked[i].marker.Some?
    ensures asked[j].marker.Some? && asked[i].marker.value < asked[j].marker.value
    decreases j
  {
    if i < j - 1 {
      MarkersIncrease(asked, i, j - 1);
    }
  }

  // ----- a server that refuses the markers it never issued -----------------------------------------------

  const UNKNOWN_MARKER: nat := 400

  predicate Issued<T>(listing: seq<T>, q: Request<nat>) {
    q.marker.None? || 0 < q.marker.value < |listing|
  }

  function Offset(q: Request<nat>): nat {
    if q.marker.Some? then q.marker.value else 0
  }

  function OffsetPage<T>(listing: seq<T>, size: nat, q: Request<nat>): Result<Page<T, nat>, nat>
    requires size > 0
  {
    if !Issued(listing, q) then Err(UNKNOWN_MARKER)
    else
      var from := Offset(q);
      if from + size < |listing| then Ok(Page(listing[from..from + size], true, Some(from + size)))
      else Ok(Page(listing[from..], false, None))
  }

  /** Fixed-size pages, with offsets as markers. */
  function OffsetServer<T>(listing: seq<T>, size: nat): Server<T, nat>
    requires size > 0
  {
    Server((q: Request<nat>) => OffsetPage(listing, size, q),
           (q: Request<nat>) => Issued(listing, q),
           listing,
           (q: Request<nat>) => Offset(q),
           (q: Request<nat>) => Offset(q))
  }

  /** Such a server is faithful although it answers unknown markers with an error. */
  lemma OffsetServerIsFaithful<T(!new)>(listing: seq<T>, size: nat)
    requires size > 0
    ensures Faithful(OffsetServer(listing, size), PARTS_ADVANCE) && Productive(OffsetServer(listing, size))
    ensures forall q :: !Issued(listing, q) ==> OffsetServer(listing, size).fetch(q) == Err(UNKNOWN_MARKER)
  {
    var server := OffsetServer(listing, size);
    forall q | server.known(q) ensures Serves(server, PARTS_ADVANCE, q) && PageIsProductive(server, q) {
      assert Issued(listing, q);
    }
  }

  /** `list_parts_all`. */
  method ListPartsAll<T>(fetch: Fetch<T, nat>, first: Request<nat>, maximumPages: nat)
    returns (r: Result<seq<Page<T, nat>>, ListError>, asked: seq<Request<nat>>)
    ensures r == if maximumPages == 0 then Err(ZeroBound) else PartPages(fetch, first, maximumPages)
    ensures |asked| <= maximumPages && Distinct(asked)
    ensures Chained(fetch, first, asked) && EndsRightly(fetch, PARTS_ADVANCE, maximumPages, r, asked)
    ensures forall i, j :: 0 <= i < j < |asked| && asked[i].marker.Some? ==>
              asked[j].marker.Some? && asked[i].marker.value < asked[j].marker.value
  {
    r, asked := ListAll(fetch, PARTS_ADVANCE, first, maximumPages);
    forall i, j | 0 <= i < j < |asked| && asked[i].marker.Some?
      ensures asked[j].marker.Some? && asked[i].marker.value < asked[j].marker.value
    {
      MarkersIncrease(asked, i, j);
    }
    if maximumPages > 0 {
      SeenSetIsRedundant(fetch, first, InitialSeen(first), maximumPages);
    }
  }

  /** `list_objects_v2_all` and `list_multipart_uploads_all`. */
  method ListByTokenAll<T, M(==, !new)>(fetch: Fetch<T, M>, first: Request<M>, maximumPages: nat)
    returns (r: Result<seq<Page<T, M>>, ListError>, asked: seq<Request<M>>)
    ensures r == ListAllResult(fetch, AnyMarker, first, maximumPages)
    ensures |asked| <= maximumPages && Distinct(asked)
    ensures Chained(fetch, first, asked) && EndsRightly(fetch, AnyMarker, maximumPages, r, asked)
    ensures r == Err(RepeatedMarker) ==> exists m :: Used(asked, m) && fetch(asked[|asked| - 1]).value.next == Some(m)
  {
    r, asked := ListAll(fetch, AnyMarker, first, maximumPages);
  }
}
