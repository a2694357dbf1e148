/** The `/api/viewers` route (src/app/api/viewers/route.ts): the auth gate, the POST
    decision and the GET aggregation of viewer rows into per-state groups. */
module ViewersRoute {
  import opened Wrappers
  import opened Text
  import opened Domain
  import opened Http
  import opened AuthToken

  const UnauthorizedMessage := "Unauthorized - Proper authentication token required"
  const MissingFieldsMessage := "State code and viewer name are required"

  // ---------------------------------------------------------------------------
  // Auth gate

  /** `verifyAuth`: the header must start with exactly `"Bearer "`, the second
      space-separated segment must be non-empty, and the verifier must accept it. A
      verifier failure is a plain `false`. */
  function VerifyAuth(header: Option<string>, verify: string -> Outcome<Claims>): (ok: bool)
    ensures header.None? ==> !ok
    ensures header.Some? && !StartsWith(header.value, BearerPrefix) ==> !ok
    ensures ok <==> && header.Some?
                    && StartsWith(header.value, BearerPrefix)
                    && |header.value| > |BearerPrefix|
                    && header.value[|BearerPrefix|] != ' '
                    && verify(TokenFromHeader(header).value).Returned?
  {
    match header
    case None => false
    case Some(h) =>
      if !StartsWith(h, BearerPrefix) then false
      else
        var token := TokenFromHeader(header).value;
        if token == "" then false
        else
          assert token[0] == h[|BearerPrefix|];
          verify(token).Returned?
  }

  /** A missing header, a wrong scheme or an empty token is refused whatever the verifier
      would say: the verifier is not consulted. */
  lemma {:induction false} VerifyAuthRefusesWithoutVerifier(
    header: Option<string>, verify1: string -> Outcome<Claims>, verify2: string -> Outcome<Claims>)
    requires TokenFromHeader(header).None? || TokenFromHeader(header).value == ""
    ensures !VerifyAuth(header, verify1) && !VerifyAuth(header, verify2)
  {
    if header.Some? && StartsWith(header.value, BearerPrefix) && |header.value| > |BearerPrefix| {
      assert TokenFromHeader(header).value == "";
      assert header.value[|BearerPrefix|] == ' ';
    }
  }

  /** `"Bearer "` and `"Bearer  x"` carry an empty second segment and are refused. */
  lemma EmptyTokenRefused(verify: string -> Outcome<Claims>)
    ensures !VerifyAuth(Some("Bearer "), verify)
    ensures !VerifyAuth(Some("Bearer  x"), verify)
  {
    assert StartsWith("Bearer ", BearerPrefix);
    assert StartsWith("Bearer  x", BearerPrefix);
  }

  // ---------------------------------------------------------------------------
  // POST /api/viewers

  /** The JSON body of a POST. A field is `None` when it is absent or null. */
  datatype ViewerBody = ViewerBody(stateCode: Option<string>, viewerName: Option<string>)

  datatype PostResult = PostResult(response: Response, store: seq<ViewerRow>)

  /** `POST`: authentication first, then the body is read and validated, then one row
      is created. `body` is `Threw` when the body is not JSON; `create` is the id the
      database assigns, or `Threw` when the insert fails. */
  function Post(header: Option<string>, verify: string -> Outcome<Claims>, body: Outcome<ViewerBody>,
                store: seq<ViewerRow>, create: Outcome<string>): (r: PostResult)
    ensures r.response.status in {201, 400, 401, 500}
    ensures r.response.status == 401 <==> !VerifyAuth(header, verify)
    ensures r.response.status == 401 ==> r.response.body == Error(UnauthorizedMessage)
    ensures r.response.status == 400 <==>
              VerifyAuth(header, verify) && body.Returned?
              && !(Truthy(body.value.stateCode) && Truthy(body.value.viewerName))
    ensures r.response.status == 201 <==>
              VerifyAuth(header, verify) && body.Returned?
              && Truthy(body.value.stateCode) && Truthy(body.value.viewerName) && create.Returned?
    ensures r.response.status == 201 ==>
              && r.response.body.Created?
              && r.response.body.row == ViewerRow(create.value, body.value.stateCode.value, body.value.viewerName.value)
              && r.store == store + [r.response.body.row]
    ensures r.response.status != 201 ==> r.store == store
  {
    if !VerifyAuth(header, verify) then
      PostResult(Response(401, Error(UnauthorizedMessage)), store)
    else
      match body
      case Threw => PostResult(Response(500, Error(SomethingWentWrong)), store)
      case Returned(b) =>
        if !Truthy(b.stateCode) || !Truthy(b.viewerName) then
          PostResult(Response(400, Error(MissingFieldsMessage)), store)
        else
          match create
          case Threw => PostResult(Response(500, Error(SomethingWentWrong)), store)
          case Returned(id) =>
            var row := ViewerRow(id, b.stateCode.value, b.viewerName.value);
            PostResult(Response(201, Created(row)), store + [row])
  }

  /** Authentication is decided before the body is looked at: an unauthenticated POST
      gives the same 401 and leaves the store alone whatever its body and the database do. */
  lemma PostChecksAuthFirst(header: Option<string>, verify: string -> Outcome<Claims>,
                            body1: Outcome<ViewerBody>, body2: Outcome<ViewerBody>,
                            store: seq<ViewerRow>, create1: Outcome<string>, create2: Outcome<string>)
    requires !VerifyAuth(header, verify)
    ensures Post(header, verify, body1, store, create1) == Post(header, verify, body2, store, create2)
    ensures Post(header, verify, body1, store, create1).store == store
  {
  }

  // ---------------------------------------------------------------------------
  // GET /api/viewers: the read model

  /** The distinct state codes of `rows`, in order of first occurrence. */
  function FirstSeenCodes(rows: seq<ViewerRow>): seq<string> {
    if |rows| == 0 then []
    else
      var codes := FirstSeenCodes(rows[..|rows| - 1]);
      var c := rows[|rows| - 1].stateCode;
      if c in codes then codes else codes + [c]
  }

  /** The viewers of the rows whose code is exactly `code`, in input order. */
  function EntriesFor(rows: seq<ViewerRow>, code: string): seq<ViewerEntry> {
    if |rows| == 0 then []
    else
      var last := rows[|rows| - 1];
      EntriesFor(rows[..|rows| - 1], code) + (if last.stateCode == code then [EntryOf(last)] else [])
  }

  /** `groups` is the read model of `rows`: one group per distinct code, in first-seen
      order, each holding exactly that code's viewers in input order. */
  ghost predicate GroupedByFirstSeen(rows: seq<ViewerRow>, groups: seq<StateGroup>) {
    var codes := FirstSeenCodes(rows);
    && |groups| == |codes|
    && forall k :: 0 <= k < |groups| ==>
         groups[k].stateCode == codes[k] && groups[k].viewers == EntriesFor(rows, codes[k])
  }

  lemma {:induction false} FirstSeenDistinct(rows: seq<ViewerRow>)
    ensures forall i, j :: 0 <= i < j < |FirstSeenCodes(rows)| ==> FirstSeenCodes(rows)[i] != FirstSeenCodes(rows)[j]
  {
    if |rows| > 0 {
      FirstSeenDistinct(rows[..|rows| - 1]);
    }
  }

  lemma {:induction false} EntriesForAbsent(rows: seq<ViewerRow>, code: string)
    requires code !in FirstSeenCodes(rows)
    ensures EntriesFor(rows, code) == []
  {
    if |rows| > 0 {
      var p := rows[..|rows| - 1];
      assert code !in FirstSeenCodes(p);
      EntriesForAbsent(p, code);
    }
  }

  /** Every row's code is among the first-seen codes, and its viewer is in that code's entries. */
  lemma {:induction false} RowIsListed(rows: seq<ViewerRow>, j: nat)
    requires j < |rows|
    ensures rows[j].stateCode in FirstSeenCodes(rows)
    ensures EntryOf(rows[j]) in EntriesFor(rows, rows[j].stateCode)
  {
    var p := rows[..|rows| - 1];
    if j < |rows| - 1 {
      assert p[j] == rows[j];
      RowIsListed(p, j);
    }
  }

  /** Every first-seen code comes from some row. */
  lemma {:induction false} FirstSeenWitness(rows: seq<ViewerRow>, code: string) returns (j: nat)
    requires code in FirstSeenCodes(rows)
    ensures j < |rows| && rows[j].stateCode == code
    ensures EntryOf(rows[j]) in EntriesFor(rows, code)
  {
    var p := rows[..|rows| - 1];
    if code in FirstSeenCodes(p) {
      j := FirstSeenWitness(p, code);
      assert p[j] == rows[j];
    } else {
      j := |rows| - 1;
    }
    RowIsListed(rows, j);
  }

  /** A row whose code already has a group extends that group and nothing else. */
  lemma GroupStepExisting(before: seq<ViewerRow>, row: ViewerRow, groups: seq<StateGroup>, k: nat)
    requires GroupedByFirstSeen(before, groups)
    requires k < |groups| && groups[k].stateCode == row.stateCode
    ensures FirstSeenCodes(before + [row]) == FirstSeenCodes(before)
    ensures GroupedByFirstSeen(before + [row],
              groups[k := StateGroup(row.stateCode, groups[k].viewers + [EntryOf(row)])])
  {
    var rows := before + [row];
    assert rows[..|rows| - 1] == before;
    FirstSeenDistinct(before);
  }

  /** A row with a new code opens a group at the end. */
  lemma GroupStepNew(before: seq<ViewerRow>, row: ViewerRow, groups: seq<StateGroup>)
    requires GroupedByFirstSeen(before, groups)
    requires row.stateCode !in FirstSeenCodes(before)
    ensures FirstSeenCodes(before + [row]) == FirstSeenCodes(before) + [row.stateCode]
    ensures GroupedByFirstSeen(before + [row], groups + [StateGroup(row.stateCode, [EntryOf(row)])])
  {
    var rows := before + [row];
    assert rows[..|rows| - 1] == before;
    EntriesForAbsent(before, row.stateCode);
  }

  /** `forEach` over the rows with an insertion-ordered `Map` from code to group: the
      first row of a code opens a group at the end, later rows append to it. */
  method GroupByState(rows: seq<ViewerRow>) returns (groups: seq<StateGroup>)
    ensures GroupedByFirstSeen(rows, groups)
  {
    var index: map<string, nat> := map[];
    groups := [];
    var i := 0;
    while i < |rows|
      invariant 0 <= i <= |rows|
      invariant GroupedByFirstSeen(rows[..i], groups)
      invariant forall c :: c in index <==> c in FirstSeenCodes(rows[..i])
      invariant forall c :: c in index ==> index[c] < |groups| && groups[index[c]].stateCode == c
    {
      var row := rows[i];
      ghost var before := rows[..i];
      ghost var after := before + [row];
      assert rows[..i + 1] == after;
      if row.stateCode in index {
        var k := index[row.stateCode];
        GroupStepExisting(before, row, groups, k);
        groups := groups[k := StateGroup(row.stateCode, groups[k].viewers + [EntryOf(row)])];
        assert FirstSeenCodes(after) == FirstSeenCodes(before);
      } else {
        GroupStepNew(before, row, groups);
        index := index[row.stateCode := |groups|];
        groups := groups + [StateGroup(row.stateCode, [EntryOf(row)])];
        assert FirstSeenCodes(after) == FirstSeenCodes(before) + [row.stateCode];
      }
      assert GroupedByFirstSeen(after, groups);
      i := i + 1;
    }
    assert rows[..|rows|] == rows;
  }

  /** `GET`: the aggregated read model with 200, or 500 when the query fails. The
      rows arrive newest first; that order is the store's and only feeds first-seen order. */
  method Get(rows: Outcome<seq<ViewerRow>>) returns (response: Response)
    ensures response.status == 200 <==> rows.Returned?
    ensures response.status == 200 ==> response.body.Groups? && GroupedByFirstSeen(rows.value, response.body.groups)
    ensures response.status != 200 ==> response == Response(500, Error(SomethingWentWrong))
  {
    match rows
    case Threw =>
      response := Response(500, Error(SomethingWentWrong));
    case Returned(rs) =>
      var groups := GroupByState(rs);
      response := Response(200, Groups(groups));
  }

  // ---------------------------------------------------------------------------
  // Properties of the read model

  /** Group codes are pairwise distinct and no group is empty. */
  lemma GroupsDistinctAndNonEmpty(rows: seq<ViewerRow>, groups: seq<StateGroup>)
    requires GroupedByFirstSeen(rows, groups)
    ensures forall i, j :: 0 <= i < j < |groups| ==> groups[i].stateCode != groups[j].stateCode
    ensures forall k :: 0 <= k < |groups| ==> |groups[k].viewers| > 0
  {
    FirstSeenDistinct(rows);
    forall k | 0 <= k < |groups|
      ensures |groups[k].viewers| > 0
    {
      var j := FirstSeenWitness(rows, groups[k].stateCode);
    }
  }

  /** Every row lands in exactly one group: the one whose code equals its own. */
  lemma RowInExactlyOneGroup(rows: seq<ViewerRow>, groups: seq<StateGroup>, j: nat) returns (k: nat)
    requires GroupedByFirstSeen(rows, groups)
    requires j < |rows|
    ensures k < |groups| && groups[k].stateCode == rows[j].stateCode
    ensures EntryOf(rows[j]) in groups[k].viewers
    ensures forall k' :: 0 <= k' < |groups| && groups[k'].stateCode == rows[j].stateCode ==> k' == k
  {
    RowIsListed(rows, j);
    var codes := FirstSeenCodes(rows);
    k :| 0 <= k < |codes| && codes[k] == rows[j].stateCode;
    GroupsDistinctAndNonEmpty(rows, groups);
  }

  /** Groups appear in first-occurrence order: some row of an earlier group precedes
      every row of a later group. */
  lemma GroupsInFirstSeenOrder(rows: seq<ViewerRow>, groups: seq<StateGroup>, a: nat, b: nat) returns (j: nat)
    requires GroupedByFirstSeen(rows, groups)
    requires a < b < |groups|
    ensures j < |rows| && rows[j].stateCode == groups[a].stateCode
    ensures forall j' :: 0 <= j' < |rows| && rows[j'].stateCode == groups[b].stateCode ==> j < j'
  {
    j := FirstSeenOrder(rows, a, b);
  }

  lemma {:induction false} FirstSeenOrder(rows: seq<ViewerRow>, a: nat, b: nat) returns (j: nat)
    requires a < b < |FirstSeenCodes(rows)|
    ensures j < |rows| && rows[j].stateCode == FirstSeenCodes(rows)[a]
    ensures forall j' :: 0 <= j' < |rows| && rows[j'].stateCode == FirstSeenCodes(rows)[b] ==> j < j'
  {
    var p := rows[..|rows| - 1];
    var fs := FirstSeenCodes(p);
    if b < |fs| {
      j := FirstSeenOrder(p, a, b);
      forall j' | 0 <= j' < |rows| - 1 && rows[j'].stateCode == fs[b]
        ensures j < j'
      {
        assert p[j'] == rows[j'];
      }
    } else {
      j := FirstSeenWitness(p, fs[a]);
      forall j' | 0 <= j' < |rows| && rows[j'].stateCode == FirstSeenCodes(rows)[b]
        ensures j < j'
      {
        if j' < |rows| - 1 {
          assert p[j'] == rows[j'];
          RowIsListed(p, j');
          assert false;
        }
      }
    }
  }

  // The partition count: the groups hold as many viewers as there are rows.

  function TotalViewers(groups: seq<StateGroup>): nat {
    if |groups| == 0 then 0 else |groups[0].viewers| + TotalViewers(groups[1..])
  }

  function EntryCount(rows: seq<ViewerRow>, codes: seq<string>): nat {
    if |codes| == 0 then 0 else |EntriesFor(rows, codes[0])| + EntryCount(rows, codes[1..])
  }

  lemma {:induction false} TotalIsEntryCount(rows: seq<ViewerRow>, groups: seq<StateGroup>, codes: seq<string>)
    requires |groups| == |codes|
    requires forall k :: 0 <= k < |groups| ==> groups[k].viewers == EntriesFor(rows, codes[k])
    ensures TotalViewers(groups) == EntryCount(rows, codes)
  {
    if |groups| > 0 {
      TotalIsEntryCount(rows, groups[1..], codes[1..]);
    }
  }

  lemma {:induction false} EntryCountAppendRow(rows: seq<ViewerRow>, r: ViewerRow, codes: seq<string>)
    requires forall i, j :: 0 <= i < j < |codes| ==> codes[i] != codes[j]
    ensures EntryCount(rows + [r], codes) == EntryCount(rows, codes) + (if r.stateCode in codes then 1 else 0)
  {
    if |codes| > 0 {
      assert (rows + [r])[..|rows|] == rows;
      EntryCountAppendRow(rows, r, codes[1..]);
      assert codes[0] == r.stateCode ==> r.stateCode !in codes[1..];
      assert r.stateCode in codes <==> r.stateCode == codes[0] || r.stateCode in codes[1..];
    }
  }

  lemma {:induction false} EntryCountAppendCode(rows: seq<ViewerRow>, codes: seq<string>, c: string)
    ensures EntryCount(rows, codes + [c]) == EntryCount(rows, codes) + |EntriesFor(rows, c)|
  {
    if |codes| > 0 {
      assert (codes + [c])[1..] == codes[1..] + [c];
      EntryCountAppendCode(rows, codes[1..], c);
    }
  }

  lemma {:induction false} EntryCountOfFirstSeen(rows: seq<ViewerRow>)
    ensures EntryCount(rows, FirstSeenCodes(rows)) == |rows|
  {
    if |rows| > 0 {
      var p := rows[..|rows| - 1];
      var r := rows[|rows| - 1];
      assert rows == p + [r];
      var fs := FirstSeenCodes(p);
      EntryCountOfFirstSeen(p);
      FirstSeenDistinct(p);
      EntryCountAppendRow(p, r, fs);
      if r.stateCode !in fs {
        EntryCountAppendCode(rows, fs, r.stateCode);
        EntriesForAbsent(p, r.stateCode);
      }
    }
  }

  /** The groups hold exactly as many viewers as there are rows. */
  lemma GroupingPreservesCount(rows: seq<ViewerRow>, groups: seq<StateGroup>)
    requires GroupedByFirstSeen(rows, groups)
    ensures TotalViewers(groups) == |rows|
  {
    TotalIsEntryCount(rows, groups, FirstSeenCodes(rows));
    EntryCountOfFirstSeen(rows);
  }
}
