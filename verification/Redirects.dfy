/** The redirect loop of a requests session, for any server. */
module Redirects {
  import opened Options

  /** A prepared request: its URL without and with the fragment apart, and its body. */
  datatype Request = Request(verb: string, url: string, fragment: string, body: Option<string>)

  datatype Response = Response(status: int, location: Option<string>)

  /** URL work that is not modelled: splitting off a fragment, resolving against the current URL. */
  datatype Urls = Urls(split: string -> (string, string), resolve: (string, string) -> string)

  /** Any server: its answer may depend on every request sent so far. */
  type Server = seq<Request> -> Response

  const REDIRECTS := {301, 302, 303, 307, 308}

  /** `get_redirect_target`, with the empty string as "none" (the loop tests truth). */
  function Target(r: Response): string {
    if r.location.Some? && r.status in REDIRECTS then r.location.value else ""
  }

  predicate Keeps(status: int) { status == 307 || status == 308 }

  /** `rebuild_method` (section 6.4 of RFC 7231, with the browsers' deviations). */
  function RebuildMethod(verb: string, status: int): string {
    var a := if status == 303 && verb != "HEAD" then "GET" else verb;
    var b := if status == 302 && a != "HEAD" then "GET" else a;
    if status == 301 && b == "POST" then "GET" else b
  }

  /** The request that follows the redirect in `resp`. */
  function Next(u: Urls, req: Request, resp: Response): Request {
    var (rest, fragment) := u.split(Target(resp));
    Request(RebuildMethod(req.verb, resp.status), u.resolve(req.url, rest),
            if fragment == "" then req.fragment else fragment,
            if Keeps(resp.status) then req.body else None)
  }

  /** The whole exchange: requests and responses in order, the history set on each response, and
      whether the redirect limit was exceeded. */
  datatype Chain = Chain(requests: seq<Request>, responses: seq<Response>, histories: seq<seq<Response>>, tooMany: bool)

  function Max0(n: int): nat { if n < 0 then 0 else n }

  /** What the loop produces from requests `qs` and responses `rs` so far. */
  function Follow(
    u: Urls, server: Server, maxRedirects: int, qs: seq<Request>, rs: seq<Response>): (seq<Request>, seq<Response>)
    requires |qs| == |rs| > 0
    decreases Max0(maxRedirects - |rs| + 1)
  {
    if Target(rs[|rs| - 1]) == "" || |rs| - 1 >= maxRedirects then (qs, rs)
    else
      var qs' := qs + [Next(u, qs[|qs| - 1], rs[|rs| - 1])];
      Follow(u, server, maxRedirects, qs', rs + [server(qs')])
  }

  /** Request and response `k + 1` come from request and response `k`. */
  ghost predicate LinkAt(u: Urls, server: Server, qs: seq<Request>, rs: seq<Response>, k: nat)
    requires k + 1 < |qs| == |rs|
  {
    Target(rs[k]) != "" && qs[k + 1] == Next(u, qs[k], rs[k]) && rs[k + 1] == server(qs[..k + 2])
  }

  ghost predicate Linked(u: Urls, server: Server, qs: seq<Request>, rs: seq<Response>) {
    |qs| == |rs| > 0 && forall k | 0 <= k < |qs| - 1 :: LinkAt(u, server, qs, rs, k)
  }

  lemma LinkedSnoc(u: Urls, server: Server, qs: seq<Request>, rs: seq<Response>, q: Request)
    requires Linked(u, server, qs, rs) && Target(rs[|rs| - 1]) != "" && q == Next(u, qs[|qs| - 1], rs[|rs| - 1])
    ensures Linked(u, server, qs + [q], rs + [server(qs + [q])])
  {
    var qs', rs' := qs + [q], rs + [server(qs + [q])];
    forall k | 0 <= k < |qs'| - 1 ensures LinkAt(u, server, qs', rs', k) {
      if k < |qs| - 1 {
        assert LinkAt(u, server, qs, rs, k);
        assert qs'[..k + 2] == qs[..k + 2];
      } else {
        assert qs'[..k + 2] == qs';
      }
    }
  }

  /** The history of each response is exactly the responses before it. */
  ghost predicate Histories(hs: seq<seq<Response>>, rs: seq<Response>) {
    |hs| <= |rs| && forall k | 0 <= k < |hs| :: hs[k] == rs[..k]
  }

  /** What the loop keeps: `hist` is every response but the last, and those have their histories. */
  ghost predicate Going(
    u: Urls, server: Server, max: int, sent: seq<Request>, received: seq<Response>, hist: seq<Response>,
    histories: seq<seq<Response>>)
  {
    && Linked(u, server, sent, received)
    && hist == received[..|received| - 1] && |hist| <= Max0(max)
    && |histories| == |hist| && Histories(histories, received)
  }

  lemma OneHop(
    u: Urls, server: Server, max: int, sent: seq<Request>, received: seq<Response>, hist: seq<Response>,
    histories: seq<seq<Response>>, req: Request)
    requires Going(u, server, max, sent, received, hist, histories) && |hist| < max
    requires Target(received[|received| - 1]) != ""
    requires req == Next(u, sent[|sent| - 1], received[|received| - 1])
    ensures
      var resp := server(sent + [req]);
      && Going(u, server, max, sent + [req], received + [resp], hist + [received[|received| - 1]], histories + [hist])
      && Follow(u, server, max, sent, received) == Follow(u, server, max, sent + [req], received + [resp])
  {
    var resp := server(sent + [req]);
    LinkedSnoc(u, server, sent, received, req);
  }

  /** `resolve_redirects`, as `Session.send` runs it: yields the follow-up responses and moves the
      earlier ones into the last response's history. */
  method SendWithRedirects(u: Urls, server: Server, maxRedirects: int, request: Request, first: Response)
      returns (c: Chain)
    ensures Linked(u, server, c.requests, c.responses)
    ensures (c.requests, c.responses) == Follow(u, server, maxRedirects, [request], [first])
    ensures c.requests[0] == request && c.responses[0] == first
    ensures |c.responses| - 1 <= Max0(maxRedirects)
    ensures c.tooMany <==> Target(c.responses[|c.responses| - 1]) != ""
    ensures c.tooMany ==> |c.responses| - 1 == Max0(maxRedirects)
    ensures Histories(c.histories, c.responses) && |c.histories| == |c.responses|
  {
    var hist: seq<Response> := [];
    var resp, req := first, request;
    var url := Target(resp);
    var sent, received := [request], [first];
    var histories: seq<seq<Response>> := [];
    while url != ""
      invariant Going(u, server, maxRedirects, sent, received, hist, histories)
      invariant sent[0] == request && received[0] == first
      invariant Follow(u, server, maxRedirects, sent, received) == Follow(u, server, maxRedirects, [request], [first])
      invariant req == sent[|sent| - 1] && resp == received[|received| - 1] && url == Target(resp)
      decreases Max0(maxRedirects) - |hist|
    {
      if |hist| >= maxRedirects {
        return Chain(sent, received, histories + [hist], true);
      }
      req := Redirected(u, req, resp, url);
      OneHop(u, server, maxRedirects, sent, received, hist, histories, req);
      histories := histories + [hist];
      hist := hist + [resp];
      sent := sent + [req];
      resp := server(sent);
      received := received + [resp];
      url := Target(resp);
    }
    histories := histories + [hist];
    c := Chain(sent, received, histories, false);
  }

  /** The copy of the request that the loop prepares for the next hop. */
  method Redirected(u: Urls, req: Request, resp: Response, url: string) returns (prepared: Request)
    requires url == Target(resp)
    ensures prepared == Next(u, req, resp)
  {
    prepared := req;
    var (rest, fragment) := u.split(url);
    if fragment != "" { prepared := prepared.(fragment := fragment); }
    prepared := prepared.(url := u.resolve(req.url, rest));
    prepared := prepared.(verb := RebuildMethod(req.verb, resp.status));
    if resp.status != 307 && resp.status != 308 {
      prepared := prepared.(body := None);
    }
  }

  // ---- One hop ----

  /** What the next request is, status by status: 303 and 302 turn all but HEAD into GET, 301 turns POST
      into GET, 307 and 308 keep method and body. */
  lemma HopExact(u: Urls, server: Server, qs: seq<Request>, rs: seq<Response>, k: nat)
    requires Linked(u, server, qs, rs) && k + 1 < |qs|
    ensures
      var q, r, n := qs[k], rs[k], qs[k + 1];
      && r.status in {301, 302, 303, 307, 308} && r.location.Some? && r.location.value != ""
      && n.url == u.resolve(q.url, u.split(r.location.value).0)
      && (u.split(r.location.value).1 != "" ==> n.fragment == u.split(r.location.value).1)
      && (u.split(r.location.value).1 == "" ==> n.fragment == q.fragment)
      && (r.status in {302, 303} ==> n.verb == if q.verb == "HEAD" then "HEAD" else "GET")
      && (r.status == 301 ==> n.verb == if q.verb == "POST" then "GET" else q.verb)
      && (r.status in {307, 308} ==> n.verb == q.verb && n.body == q.body)
      && (r.status in {301, 302, 303} ==> n.body == None)
      && rs[k + 1] == server(qs[..k + 2])
  {
    assert LinkAt(u, server, qs, rs, k);
  }

  /** A response redirects iff it has one of the five statuses and a non-empty location. */
  lemma RedirectsExact(r: Response)
    ensures Target(r) != "" <==>
              r.status in {301, 302, 303, 307, 308} && r.location.Some? && r.location.value != ""
  {
  }

  // ---- What holds along every chain ----

  /** GET and HEAD never change; any other method is kept or becomes GET, and under 307 and 308 it is kept. */
  lemma {:induction false} VerbAlongChain(u: Urls, server: Server, qs: seq<Request>, rs: seq<Response>, k: nat)
    requires Linked(u, server, qs, rs) && k < |qs|
    ensures qs[0].verb == "GET" || qs[0].verb == "HEAD" ==> qs[k].verb == qs[0].verb
    ensures qs[k].verb == qs[0].verb || qs[k].verb == "GET"
    ensures (forall i | 0 <= i < k :: Keeps(rs[i].status)) ==> qs[k].verb == qs[0].verb
    ensures qs[0].verb == "POST" ==> (qs[k].verb == "POST" <==> forall i | 0 <= i < k :: Keeps(rs[i].status))
  {
    if k > 0 {
      VerbAlongChain(u, server, qs, rs, k - 1);
      assert LinkAt(u, server, qs, rs, k - 1);
      assert rs[k - 1].status in REDIRECTS;
    }
  }

  /** The body is there exactly while every redirect so far was a 307 or a 308. */
  lemma {:induction false} BodyAlongChain(u: Urls, server: Server, qs: seq<Request>, rs: seq<Response>, k: nat)
    requires Linked(u, server, qs, rs) && k < |qs|
    ensures qs[k].body == if forall i | 0 <= i < k :: Keeps(rs[i].status) then qs[0].body else None
  {
    if k > 0 {
      BodyAlongChain(u, server, qs, rs, k - 1);
      assert LinkAt(u, server, qs, rs, k - 1);
    }
  }

  /** The last fragment that a redirect gave, else the original one. */
  function LastFragment(u: Urls, initial: string, rs: seq<Response>): string {
    if rs == [] then initial
    else
      var f := u.split(Target(rs[|rs| - 1])).1;
      if f != "" then f else LastFragment(u, initial, rs[..|rs| - 1])
  }

  /** Fragments are inherited along the chain (section 7.1.2 of RFC 7231). */
  lemma {:induction false} FragmentAlongChain(u: Urls, server: Server, qs: seq<Request>, rs: seq<Response>, k: nat)
    requires Linked(u, server, qs, rs) && k < |qs|
    ensures qs[k].fragment == LastFragment(u, qs[0].fragment, rs[..k])
  {
    if k > 0 {
      FragmentAlongChain(u, server, qs, rs, k - 1);
      assert LinkAt(u, server, qs, rs, k - 1);
      assert rs[..k][..k - 1] == rs[..k - 1];
    }
  }

  /** The limit is exceeded exactly when the first `max_redirects + 1` responses all redirect. */
  lemma {:induction false} TooManyIff(u: Urls, server: Server, maxRedirects: int, qs: seq<Request>, rs: seq<Response>)
    requires |qs| == |rs| > 0 && |rs| - 1 <= Max0(maxRedirects)
    requires forall k | 0 <= k < |rs| - 1 :: Target(rs[k]) != ""
    ensures
      var (qs', rs') := Follow(u, server, maxRedirects, qs, rs);
      && |qs'| == |rs'| && |rs| <= |rs'| <= Max0(maxRedirects) + 1
      && (forall k | 0 <= k < |rs'| - 1 :: Target(rs'[k]) != "")
      && (Target(rs'[|rs'| - 1]) != "" <==> |rs'| == Max0(maxRedirects) + 1 && forall k | 0 <= k < |rs'| ::
        Target(rs'[k]) != "")
    decreases Max0(maxRedirects - |rs| + 1)
  {
    if Target(rs[|rs| - 1]) != "" && |rs| - 1 < maxRedirects {
      var qs' := qs + [Next(u, qs[|qs| - 1], rs[|rs| - 1])];
      TooManyIff(u, server, maxRedirects, qs', rs + [server(qs')]);
    }
  }
}
