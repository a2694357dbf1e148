/** The map page (src/app/mapa/page.tsx): the redirect rule, the header the client
    sends, state selection and the result of add/remove calls. The ranking itself is in
    module `Ranking`. */
module MapPage {
  import opened Wrappers
  import opened Text
  import opened Domain
  import opened Http
  import opened AuthToken
  import ViewersRoute
  import Ranking

  /** `Bearer ${token}` with the token read from storage; a missing token is
      interpolated as the text `null`. */
  function AuthorizationHeader(stored: Option<string>): (header: string)
    ensures StartsWith(header, BearerPrefix)
    ensures stored.Some? ==> header[|BearerPrefix|..] == stored.value
    ensures stored.None? ==> header == BearerPrefix + "null"
  {
    BearerPrefix + match stored { case Some(t) => t case None => "null" }
  }

  /** Visible ASCII only (`!` to `~`). `fetch` passes such a header value through
      unchanged: it has no leading or trailing whitespace to strip and no character
      that makes `fetch` refuse the header. Every JWT is of this form. */
  predicate IsVisibleAscii(t: string) {
    forall k :: 0 <= k < |t| ==> '!' <= t[k] <= '~'
  }

  /** A non-empty stored token of visible ASCII reaches the server's extraction
      unchanged; with no stored token the server is asked to verify the literal `null`. */
  lemma StoredTokenReachesServer(stored: Option<string>)
    requires stored.Some? ==> stored.value != "" && IsVisibleAscii(stored.value)
    ensures TokenFromHeader(Some(AuthorizationHeader(stored))) == Some(if stored.Some? then stored.value else "null")
  {
    match stored
    case Some(t) =>
      assert ' ' !in t by {
        forall k | 0 <= k < |t| ensures t[k] != ' ' { }
      }
      BearerRoundTrip(t);
    case None => BearerRoundTrip("null");
  }

  /** What the page does when the auth state changes. */
  datatype Effect = RedirectToLogin | LoadStates | Wait

  /** The `useEffect` on `user`/`isLoading`: redirect to `/login` once loading is over
      without a user, load the states whenever there is a user, otherwise wait. */
  function OnAuthChange(isLoading: bool, signedIn: bool): (e: Effect)
    ensures e == RedirectToLogin <==> !isLoading && !signedIn
    ensures e == LoadStates <==> signedIn
    ensures e == Wait <==> isLoading && !signedIn
  {
    if !isLoading && !signedIn then RedirectToLogin
    else if signedIn then LoadStates
    else Wait
  }

  /** `handleStateClick`: the first group with exactly this code, or an empty one. */
  function SelectState(states: seq<StateGroup>, code: string): (s: StateGroup)
    ensures s.stateCode == code
    ensures s in states || s.viewers == []
    ensures (forall i :: 0 <= i < |states| ==> states[i].stateCode != code) ==> s == StateGroup(code, [])
    ensures forall i :: (0 <= i < |states| && states[i].stateCode == code
                         && (forall j :: 0 <= j < i ==> states[j].stateCode != code)) ==> s == states[i]
  {
    match FindGroup(states, code)
    case Some(g) => g
    case None => StateGroup(code, [])
  }

  /** `response.ok`: a 2xx status. */
  predicate IsOk(status: int) {
    200 <= status <= 299
  }

  datatype MutationResult = MutationResult(success: bool, reload: bool)

  /** `addViewer` / `removeViewer`: true exactly on a 2xx response, in which case the
      states are reloaded; a network failure is caught and reported as false. */
  function MutationOutcome(response: Outcome<int>): (r: MutationResult)
    ensures r.success <==> response.Returned? && IsOk(response.value)
    ensures r.reload == r.success
  {
    match response
    case Returned(status) => if IsOk(status) then MutationResult(true, true) else MutationResult(false, false)
    case Threw => MutationResult(false, false)
  }

  /** Adding a viewer end to end: with a stored token of visible ASCII that the verifier
      accepts and non-empty fields, the route creates exactly the requested row and the
      page reports success. */
  lemma AddViewerSucceeds(token: string, verify: string -> Outcome<Claims>, code: string, name: string,
                          store: seq<ViewerRow>, id: string)
    requires token != "" && IsVisibleAscii(token) && verify(token).Returned?
    requires code != "" && name != ""
    ensures var r := ViewersRoute.Post(Some(AuthorizationHeader(Some(token))), verify,
                                       Returned(ViewersRoute.ViewerBody(Some(code), Some(name))), store, Returned(id));
            && r.response.status == 201
            && r.store == store + [ViewerRow(id, code, name)]
            && MutationOutcome(Returned(r.response.status)).success
  {
    var header := AuthorizationHeader(Some(token));
    StoredTokenReachesServer(Some(token));
    assert header[|BearerPrefix|] == token[0];
  }

  /** Without a stored token the request carries `Bearer null`; unless the verifier
      accepts the text `null`, the route answers 401, nothing is stored, and the page
      reports failure. */
  lemma AddViewerWithoutTokenFails(verify: string -> Outcome<Claims>, body: Outcome<ViewersRoute.ViewerBody>,
                                   store: seq<ViewerRow>, create: Outcome<string>)
    requires verify("null").Threw?
    ensures var r := ViewersRoute.Post(Some(AuthorizationHeader(None)), verify, body, store, create);
            && r.response.status == 401
            && r.store == store
            && !MutationOutcome(Returned(r.response.status)).success
  {
    StoredTokenReachesServer(None);
  }

  /** The tie-breaking example: two states with five viewers and one with three rank in
      that order, the equal ones in their input order. */
  lemma RankingKeepsTies(sp: StateGroup, rj: StateGroup, mg: StateGroup)
    requires ViewerCount(sp) == 5 && ViewerCount(rj) == 5 && ViewerCount(mg) == 3
    ensures Ranking.Rank([sp, rj, mg]) == [sp, rj, mg]
  {
    Ranking.RankOfOrderedIsIdentity([sp, rj, mg]);
  }
}
