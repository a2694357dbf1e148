/** The records the application passes around: database rows, the per-state read model,
    users and the claims carried by a signed token. */
module Domain {
  import opened Wrappers

  /** A row of the `stateViewers` table (its `createdAt` column only orders the rows
      the store returns, so it is not kept). */
  datatype ViewerRow = ViewerRow(id: string, stateCode: string, viewerName: string)

  /** One viewer as the read model and the client show it. */
  datatype ViewerEntry = ViewerEntry(id: string, viewerName: string)

  /** A state with the viewers attached to it (`StateInfo` / `StateViewerData`). */
  datatype StateGroup = StateGroup(stateCode: string, viewers: seq<ViewerEntry>)

  /** A row of the `user` table; `passwordHash` is the bcrypt hash. */
  datatype User = User(id: string, email: string, passwordHash: string)

  /** The claims a token is signed over: `{userId, email}`. */
  datatype Claims = Claims(userId: string, email: string)

  function EntryOf(row: ViewerRow): ViewerEntry {
    ViewerEntry(row.id, row.viewerName)
  }

  function ViewerCount(g: StateGroup): nat {
    |g.viewers|
  }

  /** `states.findIndex(s => s.stateCode === code)`: the position of the first group whose
      code is exactly `code` (no case folding), if any. */
  function FindIndex(states: seq<StateGroup>, code: string): (r: Option<nat>)
    ensures r.None? <==> forall i :: 0 <= i < |states| ==> states[i].stateCode != code
    ensures r.Some? ==> r.value < |states| && states[r.value].stateCode == code
    ensures r.Some? ==> forall j :: 0 <= j < r.value ==> states[j].stateCode != code
  {
    if |states| == 0 then None
    else if states[0].stateCode == code then Some(0)
    else match FindIndex(states[1..], code)
      case None => None
      case Some(k) => Some(k + 1)
  }

  /** `states.find(s => s.stateCode === code)`. */
  function FindGroup(states: seq<StateGroup>, code: string): Option<StateGroup> {
    match FindIndex(states, code)
    case None => None
    case Some(k) => Some(states[k])
  }
}

/** HTTP responses of the API routes: a status code and a JSON body. */
module Http {
  import opened Domain

  datatype Body =
    | Error(message: string)
    | UserInfo(id: string, email: string)
    | LoginOk(token: string, id: string, email: string)
    | Created(row: ViewerRow)
    | Groups(groups: seq<StateGroup>)

  datatype Response = Response(status: int, body: Body)

  /** The body every route returns from its catch-all handler. */
  const SomethingWentWrong := "Something went wrong"
}
