/** The viewer modal (src/components/ViewerModal.tsx): optimistic add and remove on the
    local list, rolled back when the server call fails. */
module ViewerModal {
  import opened Wrappers
  import opened Text
  import opened Domain
  import StateNames

  const EmptyNameError := "O nome do viewer não pode estar vazio"
  const AddRefusedError := "Não foi possível adicionar o viewer"
  const AddFailedError := "Ocorreu um erro ao adicionar o viewer"
  const TempPrefix := "temp-"

  /** The modal's state: the text field, the local list, the error line and the busy flag. */
  datatype ModalState = ModalState(input: string, viewers: seq<ViewerEntry>, error: string, submitting: bool)

  /** The call the modal makes to its `onAddViewer` / `onRemoveViewer` callback. */
  datatype Call = AddCall(stateCode: string, viewerName: string) | RemoveCall(id: string)

  /** A transition: the state after the optimistic edit (what the user sees while the
      call is pending), the call made, and the state once the call settled. */
  datatype Transition = Transition(pending: ModalState, call: Option<Call>, settled: ModalState)

  /** `prev.filter(v => v.id !== id)`. */
  function Without(viewers: seq<ViewerEntry>, id: string): (r: seq<ViewerEntry>)
    ensures |r| <= |viewers|
    ensures forall e :: e in r <==> e in viewers && e.id != id
  {
    if |viewers| == 0 then []
    else (if viewers[0].id != id then [viewers[0]] else []) + Without(viewers[1..], id)
  }

  /** Filtering keeps every copy of each entry whose id differs, and no copy of the others. */
  lemma {:induction false} WithoutCounts(viewers: seq<ViewerEntry>, id: string)
    ensures forall e :: multiset(Without(viewers, id))[e] == if e.id != id then multiset(viewers)[e] else 0
  {
    if |viewers| > 0 {
      WithoutCounts(viewers[1..], id);
      assert viewers == [viewers[0]] + viewers[1..];
      assert multiset(viewers) == multiset([viewers[0]]) + multiset(viewers[1..]);
      var head := if viewers[0].id != id then [viewers[0]] else [];
      assert multiset(Without(viewers, id)) == multiset(head) + multiset(Without(viewers[1..], id));
    }
  }

  /** `a` is `b` with some entries left out, the rest in the same order. */
  predicate IsSubsequence(a: seq<ViewerEntry>, b: seq<ViewerEntry>)
    decreases |b|
  {
    |a| == 0 || (|b| > 0 && (if a[0] == b[0] then IsSubsequence(a[1..], b[1..]) else IsSubsequence(a, b[1..])))
  }

  /** Filtering keeps the remaining entries in their relative order. */
  lemma {:induction false} WithoutKeepsOrder(viewers: seq<ViewerEntry>, id: string)
    ensures IsSubsequence(Without(viewers, id), viewers)
  {
    if |viewers| > 0 {
      WithoutKeepsOrder(viewers[1..], id);
      var rest := Without(viewers[1..], id);
      if viewers[0].id != id {
        assert Without(viewers, id) == [viewers[0]] + rest;
        assert ([viewers[0]] + rest)[1..] == rest;
      } else {
        assert Without(viewers, id) == rest;
        if |rest| > 0 {
          assert rest[0] in viewers[1..];
          assert rest[0] != viewers[0];
        }
      }
    }
  }

  /** Filtering out an id nobody has changes nothing; filtering an appended entry with
      that id undoes the append. */
  lemma {:induction false} WithoutFresh(viewers: seq<ViewerEntry>, e: ViewerEntry)
    requires forall i :: 0 <= i < |viewers| ==> viewers[i].id != e.id
    ensures Without(viewers, e.id) == viewers
    ensures Without(viewers + [e], e.id) == viewers
  {
    if |viewers| > 0 {
      WithoutFresh(viewers[1..], e);
      assert (viewers + [e])[1..] == viewers[1..] + [e];
      assert viewers == [viewers[0]] + viewers[1..];
    } else {
      assert ([] + [e])[1..] == [];
    }
  }

  /** `handleAddViewer`. A name that trims to nothing sets the error and calls nothing.
      Otherwise the trimmed name is appended under `tempId`, the field is cleared and
      `onAddViewer` is called with the code as given; on `false` or a throw the temp entry
      is filtered out, the field gets the trimmed name back and an error is shown. */
  function AddViewer(s: ModalState, stateCode: string, tempId: string, result: Outcome<bool>): (t: Transition)
    ensures Trim(s.input) == "" ==>
              t.call.None? && t.pending == t.settled == s.(error := EmptyNameError)
    ensures Trim(s.input) != "" ==>
              && t.call == Some(AddCall(stateCode, Trim(s.input)))
              && t.pending == ModalState("", s.viewers + [ViewerEntry(tempId, Trim(s.input))], "", true)
              && !t.settled.submitting
    ensures Trim(s.input) != "" && result == Returned(true) ==> t.settled == t.pending.(submitting := false)
    ensures Trim(s.input) != "" && result != Returned(true) ==>
              && t.settled.viewers == Without(t.pending.viewers, tempId)
              && t.settled.input == Trim(s.input)
              && t.settled.error == (if result.Threw? then AddFailedError else AddRefusedError)
  {
    var name := Trim(s.input);
    if name == "" then
      var s' := s.(error := EmptyNameError);
      Transition(s', None, s')
    else
      var pending := ModalState("", s.viewers + [ViewerEntry(tempId, name)], "", true);
      var settled :=
        match result
        case Returned(true) => pending.(submitting := false)
        case Returned(false) => ModalState(name, Without(pending.viewers, tempId), AddRefusedError, false)
        case Threw => ModalState(name, Without(pending.viewers, tempId), AddFailedError, false);
      Transition(pending, Some(AddCall(stateCode, name)), settled)
  }

  /** An accepted add leaves exactly one new entry, at the end of the list. */
  lemma AddAcceptedAppends(s: ModalState, stateCode: string, tempId: string)
    requires Trim(s.input) != ""
    ensures AddViewer(s, stateCode, tempId, Returned(true)).settled.viewers
            == s.viewers + [ViewerEntry(tempId, Trim(s.input))]
  {
  }

  /** A failed add with a fresh temporary id gives back the list as it was before, and
      the trimmed name is put back into the field. */
  lemma AddRollsBack(s: ModalState, stateCode: string, tempId: string, result: Outcome<bool>)
    requires Trim(s.input) != "" && result != Returned(true)
    requires forall i :: 0 <= i < |s.viewers| ==> s.viewers[i].id != tempId
    ensures AddViewer(s, stateCode, tempId, result).settled.viewers == s.viewers
    ensures AddViewer(s, stateCode, tempId, result).settled.input == Trim(s.input)
  {
    WithoutFresh(s.viewers, ViewerEntry(tempId, Trim(s.input)));
  }

  function RemoveRefusedError(viewerName: string): string {
    "Não foi possível remover \"" + viewerName + "\""
  }

  function RemoveFailedError(viewerName: string): string {
    "Erro ao remover \"" + viewerName + "\""
  }

  /** `handleRemoveViewer`: the list is snapshotted, every entry with the id is filtered
      out and `onRemoveViewer` is called; on `false` or a throw the snapshot is put back
      and an error naming the viewer is shown. A success leaves the error line as it was. */
  function RemoveViewer(s: ModalState, id: string, viewerName: string, result: Outcome<bool>): (t: Transition)
    ensures t.call == Some(RemoveCall(id))
    ensures t.pending.submitting && !t.settled.submitting
    ensures forall e :: e in t.pending.viewers <==> e in s.viewers && e.id != id
    ensures t.pending.viewers == Without(s.viewers, id)
    ensures result == Returned(true) ==> t.settled.viewers == t.pending.viewers && t.settled.error == s.error
    ensures result != Returned(true) ==> t.settled.viewers == s.viewers
    ensures result == Returned(false) ==> t.settled.error == RemoveRefusedError(viewerName)
    ensures result.Threw? ==> t.settled.error == RemoveFailedError(viewerName)
    ensures t.settled.input == s.input
  {
    var previous := s.viewers;
    var pending := s.(viewers := Without(s.viewers, id), submitting := true);
    var settled :=
      match result
      case Returned(true) => pending.(submitting := false)
      case Returned(false) => pending.(viewers := previous, error := RemoveRefusedError(viewerName), submitting := false)
      case Threw => pending.(viewers := previous, error := RemoveFailedError(viewerName), submitting := false);
    Transition(pending, Some(RemoveCall(id)), settled)
  }

  /** The remove button of an entry is enabled only while no call is pending, and never
      on an entry that is still optimistic. */
  function CanRemove(s: ModalState, e: ViewerEntry): (enabled: bool)
    ensures enabled ==> !s.submitting
    ensures |e.id| >= |TempPrefix| && e.id[..|TempPrefix|] == TempPrefix ==> !enabled
    ensures !s.submitting && (|e.id| < |TempPrefix| || e.id[..|TempPrefix|] != TempPrefix) ==> enabled
  {
    !s.submitting && !StartsWith(e.id, TempPrefix)
  }

  /** An optimistic entry added with a `temp-` id is listed while the add is pending, and
      after it is accepted, but its remove button stays disabled throughout. */
  lemma TempEntryNotRemovable(s: ModalState, stateCode: string, suffix: string, result: Outcome<bool>)
    requires Trim(s.input) != ""
    ensures var t := AddViewer(s, stateCode, TempPrefix + suffix, result);
            var e := ViewerEntry(TempPrefix + suffix, Trim(s.input));
            && e in t.pending.viewers
            && (result == Returned(true) ==> e in t.settled.viewers)
            && !CanRemove(t.pending, e)
            && !CanRemove(t.settled, e)
  {
    var e := ViewerEntry(TempPrefix + suffix, Trim(s.input));
    assert (s.viewers + [e])[|s.viewers|] == e;
    assert (TempPrefix + suffix)[..|TempPrefix|] == TempPrefix;
  }

  /** The header: the badge shows the upper-cased code, the title the modal's name lookup. */
  datatype Header = Header(badge: string, title: string)

  function HeaderFor(stateCode: string): (h: Header)
    ensures h.badge == Upper(stateCode)
    ensures h.title == StateNames.ModalStateName(stateCode)
    ensures |h.badge| == |stateCode|
    ensures forall k :: 0 <= k < |h.badge| ==> !('a' <= h.badge[k] <= 'z')
    ensures forall k :: 0 <= k < |h.badge| && !('a' <= stateCode[k] <= 'z') ==> h.badge[k] == stateCode[k]
    ensures StateNames.IsUpperCode(stateCode) ==> h.badge == stateCode
    ensures h.title == stateCode
            || exists i :: 0 <= i < |StateNames.Table| && StateNames.Table[i] == (stateCode, h.title)
  {
    var badge := Upper(stateCode);
    UpperIdempotent(stateCode);
    assert StateNames.IsUpperCode(stateCode) ==> badge == stateCode by {
      if StateNames.IsUpperCode(stateCode) {
        StateNames.UpperCodeIsUpper(stateCode);
      }
    }
    Header(badge, StateNames.ModalStateName(stateCode))
  }
}
