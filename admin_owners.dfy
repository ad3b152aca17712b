/**
 * LeadOwnersTab of unified_admin.py: the lead-owner list that the
 * call-processing scripts assign leads from, the list box that shows it,
 * the list of CRM users that can still be added, and the sets of
 * selected and not-yet-saved user ids. Selections are row indices; the
 * CRM user list and the outcome of saving are parameters.
 */
module AdminOwners {
  import opened Wrappers
  import opened Records
  import opened AdminHelpers

  /** `f"{name} ({email})"`: how an owner is shown and looked up. */
  function OwnerText(o: LeadOwner): string {
    o.name + " (" + o.email + ")"
  }

  const NotSavedMark := " [Not Saved]"

  /** An owner's row in the list box: marked while its id is unsaved. */
  function OwnerRow(o: LeadOwner, unsaved: set<string>): string {
    OwnerText(o) + (if o.id in unsaved then NotSavedMark else "")
  }

  function OwnerRows(owners: seq<LeadOwner>, unsaved: set<string>): (r: seq<string>)
    ensures |r| == |owners|
    ensures forall k | 0 <= k < |owners| :: r[k] == OwnerRow(owners[k], unsaved)
  {
    seq(|owners|, k requires 0 <= k < |owners| => OwnerRow(owners[k], unsaved))
  }

  function OwnerIds(owners: seq<LeadOwner>): set<string> {
    set o | o in owners :: o.id
  }

  lemma OwnerIdsAppend(owners: seq<LeadOwner>, o: LeadOwner)
    ensures OwnerIds(owners + [o]) == OwnerIds(owners) + {o.id}
  {
    assert forall x :: x in owners + [o] <==> x in owners || x == o;
  }

  predicate UniqueOwnerIds(owners: seq<LeadOwner>) {
    forall i, j | 0 <= i < j < |owners| :: owners[i].id != owners[j].id
  }

  /** The users that are not owners yet, in the order the CRM lists them. */
  function NotOwners(users: seq<User>, owners: seq<LeadOwner>): (r: seq<User>)
    ensures |r| <= |users|
  {
    if |users| == 0 then []
    else NotOwners(users[..|users| - 1], owners)
         + (if users[|users| - 1].id in OwnerIds(owners) then [] else [users[|users| - 1]])
  }

  /** The owner entry a user becomes. */
  function NewOwner(u: User): LeadOwner {
    LeadOwner(u.id, u.fullName, u.email)
  }

  /** The owners after adding the selected user rows in order, skipping ids that are owners already. */
  function AddUsers(owners: seq<LeadOwner>, selected: seq<nat>, rows: seq<User>): (r: seq<LeadOwner>)
    ensures |owners| <= |r| <= |owners| + |selected|
  {
    if |selected| == 0 then owners
    else
      var before := AddUsers(owners, selected[..|selected| - 1], rows);
      var index := selected[|selected| - 1];
      if index < |rows| && rows[index].id !in OwnerIds(before) then before + [NewOwner(rows[index])] else before
  }

  /** The first owner shown with exactly this text. */
  function FirstWithText(owners: seq<LeadOwner>, text: string): (r: Option<LeadOwner>)
    ensures r.Some? ==> r.value in owners && OwnerText(r.value) == text
    ensures r.None? ==> forall o | o in owners :: OwnerText(o) != text
  {
    if |owners| == 0 then None
    else if OwnerText(owners[0]) == text then Some(owners[0])
    else FirstWithText(owners[1..], text)
  }

  /** The owner found is the one at the first position whose text matches. */
  lemma {:induction false} FirstWithTextIsFirst(owners: seq<LeadOwner>, text: string)
    ensures FirstWithText(owners, text).Some? ==>
              exists i | 0 <= i < |owners| ::
                FirstWithText(owners, text).value == owners[i] && forall j | 0 <= j < i :: OwnerText(owners[j]) != text
  {
    if |owners| > 0 && OwnerText(owners[0]) != text {
      var tail := owners[1..];
      FirstWithTextIsFirst(tail, text);
      if FirstWithText(tail, text).Some? {
        var i :| 0 <= i < |tail| && FirstWithText(tail, text).value == tail[i]
                 && forall j | 0 <= j < i :: OwnerText(tail[j]) != text;
        assert owners[i + 1] == tail[i];
        assert forall j | 0 <= j < i + 1 :: OwnerText(owners[j]) != text by {
          forall j | 0 <= j < i + 1 ensures OwnerText(owners[j]) != text {
            if j > 0 { assert owners[j] == tail[j - 1]; }
          }
        }
      }
    }
  }

  /** The owners matched by the selected rows' texts, in selection order. */
  function MatchedOwners(selected: seq<nat>, rows: seq<string>, owners: seq<LeadOwner>): (r: seq<LeadOwner>)
    requires forall k | 0 <= k < |selected| :: selected[k] < |rows|
    ensures |r| <= |selected|
  {
    if |selected| == 0 then []
    else MatchedOwners(selected[..|selected| - 1], rows, owners)
         + match FirstWithText(owners, rows[selected[|selected| - 1]])
           case None => []
           case Some(o) => [o]
  }

  /** `owners.remove(o)`: drop the first entry equal to `o`. */
  function RemoveFirst(owners: seq<LeadOwner>, o: LeadOwner): (r: seq<LeadOwner>)
    requires o in owners
    ensures |r| == |owners| - 1
    ensures multiset(r) + multiset{o} == multiset(owners)
  {
    assert owners == [owners[0]] + owners[1..];
    if owners[0] == o then owners[1..]
    else [owners[0]] + RemoveFirst(owners[1..], o)
  }

  lemma ConsAppend<T>(x: T, front: seq<T>, back: seq<T>)
    ensures [x] + (front + back) == ([x] + front) + back
  {
  }

  /** Slicing a list is slicing its tail, one position further on. */
  lemma SliceOfTail<T>(s: seq<T>, k: nat)
    requires 0 < k < |s|
    ensures s[..k] == [s[0]] + s[1..][..k - 1] && s[k + 1..] == s[1..][k..] && s[k] == s[1..][k - 1]
  {
  }

  /** `remove` cuts out the first occurrence and keeps every other owner in order. */
  lemma {:induction false} RemoveFirstAt(owners: seq<LeadOwner>, o: LeadOwner)
    requires o in owners
    ensures exists i | 0 <= i < |owners| ::
              owners[i] == o && o !in owners[..i] && RemoveFirst(owners, o) == owners[..i] + owners[i + 1..]
  {
    if owners[0] == o {
      assert owners[..0] == [] && RemoveFirst(owners, o) == owners[1..];
    } else {
      var tail := owners[1..];
      assert o in tail by { assert owners == [owners[0]] + tail; }
      assert RemoveFirst(owners, o) == [owners[0]] + RemoveFirst(tail, o);
      RemoveFirstAt(tail, o);
      var i :| 0 <= i < |tail| && tail[i] == o && o !in tail[..i] && RemoveFirst(tail, o) == tail[..i] + tail[i + 1..];
      var k := i + 1;
      SliceOfTail(owners, k);
      assert o !in owners[..k];
      var front, back := tail[..i], tail[i + 1..];
      ConsAppend(owners[0], front, back);
      assert RemoveFirst(owners, o) == owners[..k] + owners[k + 1..];
    }
  }

  /**
   * `owners.remove(o)` for each matched owner from position `done` on:
   * the remaining list and how many removals had succeeded when the loop
   * ended or one raised ValueError.
   */
  function RemoveFrom(owners: seq<LeadOwner>, matched: seq<LeadOwner>, done: nat): (r: (seq<LeadOwner>, nat))
    requires done <= |matched|
    ensures done <= r.1 <= |matched|
    decreases |matched| - done
  {
    if done == |matched| || matched[done] !in owners then (owners, done)
    else RemoveFrom(RemoveFirst(owners, matched[done]), matched, done + 1)
  }

  /** The loop of `remove_selected_owners` over all matched owners. */
  function RemoveEach(owners: seq<LeadOwner>, matched: seq<LeadOwner>): (r: (seq<LeadOwner>, nat)) {
    RemoveFrom(owners, matched, 0)
  }

  lemma OwnerIdsPrefix(owners: seq<LeadOwner>, i: nat)
    requires i < |owners|
    ensures OwnerIds(owners[..i + 1]) == OwnerIds(owners[..i]) + {owners[i].id}
  {
    assert owners[..i + 1] == owners[..i] + [owners[i]];
    OwnerIdsAppend(owners[..i], owners[i]);
  }

  /** What `remove_selected_owners` ends with. */
  datatype RemoveOutcome =
    | NothingSelected
    | NoOwnerFound
    | Removed(count: nat)
    | RemoveRaised          // `list.remove` raised ValueError part-way

  /**
   * The removal loop of `remove_selected_owners` on the list and the two
   * id sets: each matched owner is removed, its id leaves the selection
   * and becomes unsaved, until one is no longer in the list.
   */
  method RemoveInTurn(owners: seq<LeadOwner>, selected: set<string>, unsaved: set<string>, matched: seq<LeadOwner>)
    returns (remaining: seq<LeadOwner>, selected': set<string>, unsaved': set<string>, done: nat)
    ensures (remaining, done) == RemoveEach(owners, matched)
    ensures unsaved' == unsaved + OwnerIds(matched[..done])
    ensures selected' == selected - OwnerIds(matched[..done])
  {
    remaining, selected', unsaved', done := owners, selected, unsaved, 0;
    while done < |matched| && matched[done] in remaining
      invariant done <= |matched|
      invariant RemoveFrom(remaining, matched, done) == RemoveEach(owners, matched)
      invariant unsaved' == unsaved + OwnerIds(matched[..done])
      invariant selected' == selected - OwnerIds(matched[..done])
    {
      var owner := matched[done];
      OwnerIdsPrefix(matched, done);
      remaining := RemoveFirst(remaining, owner);
      selected' := selected' - {owner.id};
      unsaved' := unsaved' + {owner.id};
      done := done + 1;
    }
  }

  class LeadOwnersTab {
    /** `self.lead_owners`: what lead_owners.json holds once saved. */
    var leadOwners: seq<LeadOwner>
    /** The users list box and its row data. */
    var userRows: seq<User>
    /** The lead-owners list box. */
    var ownerRows: seq<string>
    var selectedUsers: set<string>
    var unsavedUsers: set<string>

    /**
     * Loads the stored owners and fills both list boxes. Marking existing
     * owners in the users list selects nothing, since that list leaves owners out.
     */
    constructor (stored: seq<LeadOwner>, fetched: seq<User>)
      ensures leadOwners == stored
      ensures userRows == NotOwners(fetched, stored)
      ensures ownerRows == OwnerRows(stored, {})
      ensures selectedUsers == {} && unsavedUsers == {}
    {
      leadOwners := stored;
      userRows := [];
      ownerRows := [];
      selectedUsers := {};
      unsavedUsers := {};
      new;
      LoadUsers(fetched);
      LoadLeadOwners();
    }

    /** `load_users`: list the fetched users that are not owners yet. */
    method LoadUsers(fetched: seq<User>)
      modifies this
      ensures userRows == NotOwners(fetched, leadOwners)
      ensures leadOwners == old(leadOwners) && ownerRows == old(ownerRows)
      ensures selectedUsers == old(selectedUsers) && unsavedUsers == old(unsavedUsers)
    {
      var existing := OwnerIds(leadOwners);
      var rows: seq<User> := [];
      for i := 0 to |fetched|
        invariant rows == NotOwners(fetched[..i], leadOwners)
      {
        assert fetched[..i + 1][..i] == fetched[..i];
        if fetched[i].id in existing {
          continue;
        }
        rows := rows + [fetched[i]];
      }
      assert fetched[..|fetched|] == fetched;
      userRows := rows;
    }

    /** `load_lead_owners`: one row per owner, marked " [Not Saved]" while its id is unsaved. */
    method LoadLeadOwners()
      modifies this
      ensures ownerRows == OwnerRows(leadOwners, unsavedUsers)
      ensures leadOwners == old(leadOwners) && userRows == old(userRows)
      ensures selectedUsers == old(selectedUsers) && unsavedUsers == old(unsavedUsers)
    {
      var rows: seq<string> := [];
      for i := 0 to |leadOwners|
        invariant |rows| == i
        invariant forall k | 0 <= k < i :: rows[k] == OwnerRow(leadOwners[k], unsavedUsers)
      {
        var text := OwnerText(leadOwners[i]);
        if leadOwners[i].id in unsavedUsers {
          text := text + NotSavedMark;
        }
        rows := rows + [text];
      }
      ownerRows := rows;
    }

    /**
     * `add_selected_users`: append each selected user whose id is not an
     * owner yet and mark its id unsaved; then redraw the owners list.
     */
    method AddSelectedUsers(selected: seq<nat>) returns (added: nat)
      modifies this
      ensures leadOwners == AddUsers(old(leadOwners), selected, old(userRows))
      ensures added == |leadOwners| - |old(leadOwners)|
      ensures unsavedUsers == old(unsavedUsers) + OwnerIds(leadOwners[|old(leadOwners)|..])
      ensures |selected| > 0 ==> ownerRows == OwnerRows(leadOwners, unsavedUsers)
      ensures |selected| == 0 ==> ownerRows == old(ownerRows)
      ensures userRows == old(userRows) && selectedUsers == old(selectedUsers)
    {
      if |selected| == 0 {
        assert leadOwners[|leadOwners|..] == [];
        return 0;
      }
      added := 0;
      ghost var appended: seq<LeadOwner> := [];
      for k := 0 to |selected|
        invariant leadOwners == AddUsers(old(leadOwners), selected[..k], old(userRows))
        invariant leadOwners == old(leadOwners) + appended && added == |appended|
        invariant unsavedUsers == old(unsavedUsers) + OwnerIds(appended)
        invariant userRows == old(userRows) && selectedUsers == old(selectedUsers)
      {
        assert selected[..k + 1][..k] == selected[..k];
        var index := selected[k];
        if index < |userRows| {
          var user := userRows[index];
          if user.id !in OwnerIds(leadOwners) {
            OwnerIdsAppend(appended, NewOwner(user));
            leadOwners := leadOwners + [NewOwner(user)];
            appended := appended + [NewOwner(user)];
            unsavedUsers := unsavedUsers + {user.id};
            added := added + 1;
          }
        }
      }
      assert selected[..|selected|] == selected;
      assert leadOwners[|old(leadOwners)|..] == appended;
      LoadLeadOwners();
    }

    /** The owners the selected rows' texts resolve to, first match per row. */
    method MatchSelected(selected: seq<nat>) returns (matched: seq<LeadOwner>)
      requires forall k | 0 <= k < |selected| :: selected[k] < |ownerRows|
      ensures matched == MatchedOwners(selected, ownerRows, leadOwners)
    {
      matched := [];
      for k := 0 to |selected|
        invariant matched == MatchedOwners(selected[..k], ownerRows, leadOwners)
      {
        assert selected[..k + 1][..k] == selected[..k];
        var found := FirstWithText(leadOwners, ownerRows[selected[k]]);
        if found.Some? {
          matched := matched + [found.value];
        }
      }
      assert selected[..|selected|] == selected;
    }

    /**
     * Removes the matched owners in turn, dropping each id from the
     * selection and marking it unsaved; `done` counts the removals made
     * before one found its owner gone (ValueError).
     */
    method RemoveMatched(matched: seq<LeadOwner>) returns (done: nat)
      modifies this
      ensures (leadOwners, done) == RemoveEach(old(leadOwners), matched)
      ensures unsavedUsers == old(unsavedUsers) + OwnerIds(matched[..done])
      ensures selectedUsers == old(selectedUsers) - OwnerIds(matched[..done])
      ensures userRows == old(userRows) && ownerRows == old(ownerRows)
    {
      var owners, selected, unsaved;
      owners, selected, unsaved, done := RemoveInTurn(leadOwners, selectedUsers, unsavedUsers, matched);
      leadOwners, selectedUsers, unsavedUsers := owners, selected, unsaved;
    }

    /**
     * `remove_selected_owners`: look each selected row's text up as
     * "name (email)", remove the matched owners, and redraw the list when
     * every removal succeeded.
     */
    method RemoveSelectedOwners(selected: seq<nat>) returns (outcome: RemoveOutcome)
      requires forall k | 0 <= k < |selected| :: selected[k] < |ownerRows|
      modifies this
      ensures var matched := MatchedOwners(selected, old(ownerRows), old(leadOwners));
              var result := RemoveEach(old(leadOwners), matched);
              && (|selected| == 0 ==> outcome == NothingSelected)
              && (|selected| > 0 && matched == [] ==> outcome == NoOwnerFound)
              && (|selected| > 0 && matched != [] ==>
                    && leadOwners == result.0
                    && unsavedUsers == old(unsavedUsers) + OwnerIds(matched[..result.1])
                    && selectedUsers == old(selectedUsers) - OwnerIds(matched[..result.1])
                    && (result.1 == |matched| ==> outcome == Removed(|matched|)
                                                  && ownerRows == OwnerRows(leadOwners, unsavedUsers))
                    && (result.1 < |matched| ==> outcome == RemoveRaised && ownerRows == old(ownerRows)))
      ensures outcome.NothingSelected? || outcome.NoOwnerFound? ==>
                leadOwners == old(leadOwners) && ownerRows == old(ownerRows)
                && selectedUsers == old(selectedUsers) && unsavedUsers == old(unsavedUsers)
      ensures userRows == old(userRows)
    {
      if |selected| == 0 {
        return NothingSelected;
      }
      var matched := MatchSelected(selected);
      if matched == [] {
        return NoOwnerFound;
      }
      var done := RemoveMatched(matched);
      if done < |matched| {
        return RemoveRaised;
      }
      LoadLeadOwners();
      return Removed(|matched|);
    }

    /** `save_changes`: the unsaved marks are cleared only when the store reports success. */
    method SaveChanges(saved: bool)
      modifies this
      ensures unsavedUsers == (if saved then {} else old(unsavedUsers))
      ensures leadOwners == old(leadOwners) && ownerRows == old(ownerRows)
      ensures userRows == old(userRows) && selectedUsers == old(selectedUsers)
    {
      if saved {
        unsavedUsers := {};
      }
    }

    /**
     * `refresh_data`, as written: with unsaved ids it goes on only when the
     * user confirms; it redraws the owners list before clearing the unsaved
     * marks and does not reload the owners.
     */
    method RefreshData(confirmed: bool, fetched: seq<User>) returns (refreshed: bool)
      modifies this
      ensures refreshed <==> old(unsavedUsers) == {} || confirmed
      ensures !refreshed ==> leadOwners == old(leadOwners) && ownerRows == old(ownerRows)
                             && userRows == old(userRows) && unsavedUsers == old(unsavedUsers)
      ensures refreshed ==> && leadOwners == old(leadOwners)
                            && ownerRows == OwnerRows(leadOwners, old(unsavedUsers))
                            && userRows == NotOwners(fetched, leadOwners)
                            && unsavedUsers == {}
      ensures selectedUsers == old(selectedUsers)
    {
      if unsavedUsers != {} && !confirmed {
        return false;
      }
      LoadLeadOwners();
      LoadUsers(fetched);
      unsavedUsers := {};
      return true;
    }

    /**
     * `refresh_data` as its prompt describes it: confirmed changes are
     * discarded by reloading the stored owners, and the list is redrawn
     * after the unsaved marks are cleared.
     */
    method RefreshDataDiscarding(confirmed: bool, fetched: seq<User>, stored: seq<LeadOwner>) returns (refreshed: bool)
      modifies this
      ensures refreshed <==> old(unsavedUsers) == {} || confirmed
      ensures !refreshed ==> leadOwners == old(leadOwners) && ownerRows == old(ownerRows)
                             && userRows == old(userRows) && unsavedUsers == old(unsavedUsers)
      ensures refreshed ==> && leadOwners == stored
                            && unsavedUsers == {}
                            && ownerRows == OwnerRows(leadOwners, unsavedUsers)
                            && userRows == NotOwners(fetched, leadOwners)
      ensures selectedUsers == old(selectedUsers)
    {
      if unsavedUsers != {} && !confirmed {
        return false;
      }
      leadOwners := stored;
      unsavedUsers := {};
      LoadLeadOwners();
      LoadUsers(fetched);
      return true;
    }
  }

  // ---------------------------------------------------------------------
  // what the list operations guarantee
  // ---------------------------------------------------------------------

  /** Every owner row ends in ')' while a marked row ends in ']'. */
  lemma MarkedRowIsNoOwnerText(o: LeadOwner, unsaved: set<string>, other: LeadOwner)
    requires o.id in unsaved
    ensures OwnerRow(o, unsaved) != OwnerText(other)
  {
    var row := OwnerRow(o, unsaved);
    var text := OwnerText(other);
    assert row[|row| - 1] == ']';
    assert text[|text| - 1] == ')';
  }

  /** A row marked " [Not Saved]" matches no owner, so an unsaved owner cannot be removed from its row. */
  lemma UnsavedRowMatchesNothing(owners: seq<LeadOwner>, o: LeadOwner, unsaved: set<string>)
    requires o.id in unsaved
    ensures FirstWithText(owners, OwnerRow(o, unsaved)).None?
  {
    if FirstWithText(owners, OwnerRow(o, unsaved)).Some? {
      MarkedRowIsNoOwnerText(o, unsaved, FirstWithText(owners, OwnerRow(o, unsaved)).value);
    }
  }

  /** Selecting only rows of unsaved owners finds nothing to remove. */
  lemma {:induction false} UnsavedSelectionFindsNothing(selected: seq<nat>, owners: seq<LeadOwner>, unsaved: set<string>)
    requires forall k | 0 <= k < |selected| :: selected[k] < |owners| && owners[selected[k]].id in unsaved
    ensures MatchedOwners(selected, OwnerRows(owners, unsaved), owners) == []
  {
    if |selected| > 0 {
      UnsavedSelectionFindsNothing(selected[..|selected| - 1], owners, unsaved);
      UnsavedRowMatchesNothing(owners, owners[selected[|selected| - 1]], unsaved);
    }
  }

  /**
   * Two distinct owners shown with the same text both resolve to the first;
   * removing it the second time raises, after the first removal took effect.
   */
  lemma SharedTextRemovalRaises(a: LeadOwner, b: LeadOwner)
    requires a != b && OwnerText(a) == OwnerText(b)
    ensures MatchedOwners([0, 1], OwnerRows([a, b], {}), [a, b]) == [a, a]
    ensures RemoveEach([a, b], [a, a]) == ([b], 1)
  {
    var rows := OwnerRows([a, b], {});
    assert rows[0] == OwnerText(a) && rows[1] == OwnerText(b);
    assert [0, 1][..1] == [0];
    assert RemoveFirst([a, b], a) == [b];
    assert a !in [b];
    assert RemoveFrom([b], [a, a], 1) == ([b], 1);
    assert RemoveFrom([a, b], [a, a], 0) == RemoveFrom([b], [a, a], 1);
  }

  /** After a refresh the list box still marks the owners that were unsaved, though none are unsaved any more. */
  lemma StaleMarksAfterRefresh(owners: seq<LeadOwner>, unsaved: set<string>, k: nat)
    requires k < |owners| && owners[k].id in unsaved
    ensures OwnerRows(owners, unsaved) != OwnerRows(owners, {})
    ensures OwnerRows(owners, unsaved)[k] == OwnerText(owners[k]) + NotSavedMark
  {
    var marked := OwnerRows(owners, unsaved)[k];
    assert marked[|marked| - 1] == ']';
    var plain := OwnerRows(owners, {})[k];
    assert plain[|plain| - 1] == ')';
  }

  /** The users list holds exactly the fetched users that are not owners. */
  lemma {:induction false} NotOwnersMembership(users: seq<User>, owners: seq<LeadOwner>)
    ensures forall u :: u in NotOwners(users, owners) <==> u in users && u.id !in OwnerIds(owners)
  {
    if |users| > 0 {
      NotOwnersMembership(users[..|users| - 1], owners);
      assert users == users[..|users| - 1] + [users[|users| - 1]];
    }
  }

  /** Adding keeps the owners as a prefix, and owner ids stay unique. */
  lemma {:induction false} AddUsersKeepsIdsUnique(owners: seq<LeadOwner>, selected: seq<nat>, rows: seq<User>)
    requires UniqueOwnerIds(owners)
    ensures AddUsers(owners, selected, rows)[..|owners|] == owners
    ensures UniqueOwnerIds(AddUsers(owners, selected, rows))
  {
    if |selected| > 0 {
      var before := AddUsers(owners, selected[..|selected| - 1], rows);
      AddUsersKeepsIdsUnique(owners, selected[..|selected| - 1], rows);
      var index := selected[|selected| - 1];
      if index < |rows| && rows[index].id !in OwnerIds(before) {
        var r := before + [NewOwner(rows[index])];
        forall i, j | 0 <= i < j < |r|
          ensures r[i].id != r[j].id
        {
          if j == |before| {
            assert r[i] in before;
          }
        }
      }
    }
  }

  /** Each owner a completed removal takes away is matched once: the multisets add up. */
  lemma {:induction false} RemoveFromAccounts(owners: seq<LeadOwner>, matched: seq<LeadOwner>, done: nat)
    requires done <= |matched| && RemoveFrom(owners, matched, done).1 == |matched|
    ensures multiset(RemoveFrom(owners, matched, done).0) + multiset(matched[done..]) == multiset(owners)
    decreases |matched| - done
  {
    if done < |matched| {
      var first := matched[done];
      assert first in owners;
      var next := RemoveFirst(owners, first);
      assert RemoveFrom(owners, matched, done) == RemoveFrom(next, matched, done + 1);
      RemoveFromAccounts(next, matched, done + 1);
      var rest := RemoveFrom(next, matched, done + 1).0;
      assert matched[done..] == [first] + matched[done + 1..];
      calc {
        multiset(rest) + multiset(matched[done..]);
        multiset(rest) + multiset(matched[done + 1..]) + multiset{first};
        multiset(next) + multiset{first};
        multiset(owners);
      }
    }
  }

  lemma RemoveEachAccounts(owners: seq<LeadOwner>, matched: seq<LeadOwner>)
    requires RemoveEach(owners, matched).1 == |matched|
    ensures multiset(RemoveEach(owners, matched).0) + multiset(matched) == multiset(owners)
  {
    RemoveFromAccounts(owners, matched, 0);
    assert matched[0..] == matched;
  }
}
