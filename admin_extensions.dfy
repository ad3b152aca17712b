/**
 * ExtensionsTab of unified_admin.py: the list of configured call-queue
 * extensions, the list of call queues still available to add, and the
 * two list boxes that show them. A list-box selection is a sequence of
 * row indices; the call-queue API reply is a parameter.
 */
module AdminExtensions {
  import opened Wrappers

  /** A call queue as the telephony API lists it. */
  datatype Queue = Queue(id: string, name: string, extensionNumber: Option<string>)

  /** An entry of the configured extensions list. */
  datatype ConfiguredExtension = ConfiguredExtension(id: string, name: string, extensionNumber: string)

  function IdSet(extensions: seq<ConfiguredExtension>): set<string> {
    set e | e in extensions :: e.id
  }

  predicate UniqueIds(extensions: seq<ConfiguredExtension>) {
    forall i, j | 0 <= i < j < |extensions| :: extensions[i].id != extensions[j].id
  }

  /** The entry a selected queue becomes; a queue without an extension number gets "N/A". */
  function FromQueue(q: Queue): ConfiguredExtension {
    ConfiguredExtension(q.id, q.name, q.extensionNumber.GetOr("N/A"))
  }

  /** The queues whose id is not configured yet, in API order. */
  function Unconfigured(queues: seq<Queue>, extensions: seq<ConfiguredExtension>): (r: seq<Queue>)
    ensures |r| <= |queues|
  {
    if |queues| == 0 then []
    else Unconfigured(queues[..|queues| - 1], extensions)
         + (if queues[|queues| - 1].id in IdSet(extensions) then [] else [queues[|queues| - 1]])
  }

  /** The extensions after adding the selected rows in selection order, skipping ids already present. */
  function AddQueues(extensions: seq<ConfiguredExtension>, selected: seq<nat>, rows: seq<Queue>)
    : (r: seq<ConfiguredExtension>)
    ensures |extensions| <= |r| <= |extensions| + |selected|
  {
    if |selected| == 0 then extensions
    else
      var before := AddQueues(extensions, selected[..|selected| - 1], rows);
      var index := selected[|selected| - 1];
      if index < |rows| && rows[index].id !in IdSet(before) then before + [FromQueue(rows[index])] else before
  }

  /** The rows at the selected indices, in selection order; indices without a row are skipped. */
  function Chosen(selected: seq<nat>, rows: seq<ConfiguredExtension>): (r: seq<ConfiguredExtension>)
    ensures |r| <= |selected|
  {
    if |selected| == 0 then []
    else Chosen(selected[..|selected| - 1], rows)
         + (if selected[|selected| - 1] < |rows| then [rows[selected[|selected| - 1]]] else [])
  }

  /** `[e for e in extensions if e['id'] != id]`. */
  function WithoutId(extensions: seq<ConfiguredExtension>, id: string): (r: seq<ConfiguredExtension>)
    ensures |r| <= |extensions|
  {
    if |extensions| == 0 then []
    else WithoutId(extensions[..|extensions| - 1], id)
         + (if extensions[|extensions| - 1].id != id then [extensions[|extensions| - 1]] else [])
  }

  /** One filter pass for each extension to remove, in order. */
  function WithoutEach(extensions: seq<ConfiguredExtension>, removed: seq<ConfiguredExtension>)
    : seq<ConfiguredExtension>
  {
    if |removed| == 0 then extensions
    else WithoutId(WithoutEach(extensions, removed[..|removed| - 1]), removed[|removed| - 1].id)
  }

  /** The reference definition: a single filter keeping the extensions whose id is not in `ids`. */
  function KeepOthers(extensions: seq<ConfiguredExtension>, ids: set<string>): (r: seq<ConfiguredExtension>)
    ensures |r| <= |extensions|
  {
    if |extensions| == 0 then []
    else KeepOthers(extensions[..|extensions| - 1], ids)
         + (if extensions[|extensions| - 1].id !in ids then [extensions[|extensions| - 1]] else [])
  }

  class ExtensionsTab {
    /** `self.extensions`: what extensions.json holds once saved. */
    var extensions: seq<ConfiguredExtension>
    /** The available-queues list box and its row data. */
    var queueRows: seq<Queue>
    /** The current-extensions list box and its row data. */
    var extensionRows: seq<ConfiguredExtension>

    /** Loads the stored extensions, then fills both list boxes. */
    constructor (stored: seq<ConfiguredExtension>, fetched: seq<Queue>)
      ensures extensions == stored
      ensures queueRows == Unconfigured(fetched, stored)
      ensures extensionRows == stored
    {
      extensions := stored;
      queueRows := [];
      extensionRows := [];
      new;
      LoadAvailableQueues(fetched);
      LoadExistingExtensions();
    }

    /** `load_available_queues`: list the fetched queues that are not configured yet. */
    method LoadAvailableQueues(fetched: seq<Queue>)
      modifies this
      ensures queueRows == Unconfigured(fetched, extensions)
      ensures extensions == old(extensions) && extensionRows == old(extensionRows)
    {
      var existing := IdSet(extensions);
      var rows: seq<Queue> := [];
      for i := 0 to |fetched|
        invariant rows == Unconfigured(fetched[..i], extensions)
      {
        assert fetched[..i + 1][..i] == fetched[..i];
        if fetched[i].id in existing {
          continue;
        }
        rows := rows + [fetched[i]];
      }
      assert fetched[..|fetched|] == fetched;
      queueRows := rows;
    }

    /** `load_existing_extensions`: one row per configured extension, in order. */
    method LoadExistingExtensions()
      modifies this
      ensures extensionRows == extensions
      ensures extensions == old(extensions) && queueRows == old(queueRows)
    {
      var rows: seq<ConfiguredExtension> := [];
      for i := 0 to |extensions|
        invariant rows == extensions[..i]
      {
        rows := rows + [extensions[i]];
      }
      extensionRows := rows;
    }

    /**
     * `add_selected_queues`: append each selected queue whose id is not
     * configured yet; when something was added, refill both list boxes.
     */
    method AddSelectedQueues(selected: seq<nat>, fetched: seq<Queue>) returns (added: nat)
      modifies this
      ensures extensions == AddQueues(old(extensions), selected, old(queueRows))
      ensures added == |extensions| - |old(extensions)|
      ensures added > 0 ==> extensionRows == extensions && queueRows == Unconfigured(fetched, extensions)
      ensures added == 0 ==> extensionRows == old(extensionRows) && queueRows == old(queueRows)
    {
      if |selected| == 0 {
        return 0;
      }
      added := 0;
      for k := 0 to |selected|
        invariant extensions == AddQueues(old(extensions), selected[..k], old(queueRows))
        invariant |extensions| == |old(extensions)| + added
        invariant queueRows == old(queueRows) && extensionRows == old(extensionRows)
      {
        assert selected[..k + 1][..k] == selected[..k];
        var index := selected[k];
        if index < |queueRows| {
          var queue := queueRows[index];
          if queue.id !in IdSet(extensions) {
            extensions := extensions + [FromQueue(queue)];
            added := added + 1;
          }
        }
      }
      assert selected[..|selected|] == selected;
      if added > 0 {
        LoadExistingExtensions();
        LoadAvailableQueues(fetched);
      }
    }

    /** The configured extensions behind the selected rows, in selection order. */
    method ChosenRows(selected: seq<nat>) returns (chosen: seq<ConfiguredExtension>)
      ensures chosen == Chosen(selected, extensionRows)
    {
      chosen := [];
      for k := 0 to |selected|
        invariant chosen == Chosen(selected[..k], extensionRows)
      {
        assert selected[..k + 1][..k] == selected[..k];
        if selected[k] < |extensionRows| {
          chosen := chosen + [extensionRows[selected[k]]];
        }
      }
      assert selected[..|selected|] == selected;
    }

    /**
     * `remove_selected_extensions`: drop every extension sharing an id with
     * a selected row, then refill both list boxes.
     */
    method RemoveSelectedExtensions(selected: seq<nat>, fetched: seq<Queue>) returns (removed: nat)
      modifies this
      ensures |selected| == 0 ==> removed == 0 && extensions == old(extensions)
                                  && extensionRows == old(extensionRows) && queueRows == old(queueRows)
      ensures |selected| > 0 ==>
                && removed == |Chosen(selected, old(extensionRows))|
                && extensions == WithoutEach(old(extensions), Chosen(selected, old(extensionRows)))
                && extensionRows == extensions
                && queueRows == Unconfigured(fetched, extensions)
    {
      if |selected| == 0 {
        return 0;
      }
      var toRemove := ChosenRows(selected);
      var remaining := extensions;
      for k := 0 to |toRemove|
        invariant remaining == WithoutEach(old(extensions), toRemove[..k])
      {
        assert toRemove[..k + 1][..k] == toRemove[..k];
        remaining := WithoutId(remaining, toRemove[k].id);
      }
      assert toRemove[..|toRemove|] == toRemove;
      extensions := remaining;
      removed := |toRemove|;
      LoadExistingExtensions();
      LoadAvailableQueues(fetched);
    }
  }

  // ---------------------------------------------------------------------
  // what the list operations guarantee
  // ---------------------------------------------------------------------

  /** The available list holds exactly the fetched queues whose id is not configured. */
  lemma {:induction false} UnconfiguredMembership(queues: seq<Queue>, extensions: seq<ConfiguredExtension>)
    ensures forall q :: q in Unconfigured(queues, extensions) <==> q in queues && q.id !in IdSet(extensions)
  {
    if |queues| > 0 {
      UnconfiguredMembership(queues[..|queues| - 1], extensions);
      assert queues == queues[..|queues| - 1] + [queues[|queues| - 1]];
    }
  }

  /** Adding keeps the existing extensions, in place, as a prefix. */
  lemma {:induction false} AddQueuesKeepsPrefix(extensions: seq<ConfiguredExtension>, selected: seq<nat>, rows: seq<Queue>)
    ensures AddQueues(extensions, selected, rows)[..|extensions|] == extensions
  {
    if |selected| > 0 {
      AddQueuesKeepsPrefix(extensions, selected[..|selected| - 1], rows);
    }
  }

  /** Adding never duplicates an id: unique ids stay unique, and each new entry has an id that was not configured. */
  lemma {:induction false} AddQueuesKeepsIdsUnique(extensions: seq<ConfiguredExtension>, selected: seq<nat>, rows: seq<Queue>)
    requires UniqueIds(extensions)
    ensures UniqueIds(AddQueues(extensions, selected, rows))
  {
    if |selected| > 0 {
      var before := AddQueues(extensions, selected[..|selected| - 1], rows);
      AddQueuesKeepsIdsUnique(extensions, selected[..|selected| - 1], rows);
      var index := selected[|selected| - 1];
      if index < |rows| && rows[index].id !in IdSet(before) {
        var r := before + [FromQueue(rows[index])];
        forall i, j | 0 <= i < j < |r|
          ensures r[i].id != r[j].id
        {
          if j == |before| {
            assert r[i] in before;
          }
        }
      }
    }
  }

  /** Every appended entry comes from a selected row, and its id was not configured before. */
  lemma {:induction false} AddQueuesFromSelection(extensions: seq<ConfiguredExtension>, selected: seq<nat>, rows: seq<Queue>)
    ensures var r := AddQueues(extensions, selected, rows);
            forall k | |extensions| <= k < |r| ::
              && r[k].id !in IdSet(extensions)
              && exists s | 0 <= s < |selected| :: selected[s] < |rows| && r[k] == FromQueue(rows[selected[s]])
  {
    if |selected| > 0 {
      var init := selected[..|selected| - 1];
      var before := AddQueues(extensions, init, rows);
      AddQueuesFromSelection(extensions, init, rows);
      AddQueuesKeepsPrefix(extensions, init, rows);
      var r := AddQueues(extensions, selected, rows);
      var index := selected[|selected| - 1];
      assert init == selected[..|selected| - 1];
      forall k | |extensions| <= k < |r|
        ensures r[k].id !in IdSet(extensions)
        ensures exists s | 0 <= s < |selected| :: selected[s] < |rows| && r[k] == FromQueue(rows[selected[s]])
      {
        if k < |before| {
          assert r[k] == before[k];
          var s :| 0 <= s < |init| && init[s] < |rows| && before[k] == FromQueue(rows[init[s]]);
          assert selected[s] == init[s];
        } else {
          assert index < |rows| && r[k] == FromQueue(rows[index]);
          assert selected[|selected| - 1] == index;
          assert IdSet(extensions) <= IdSet(before) by {
            forall e | e in extensions
              ensures e in before
            {
              var i :| 0 <= i < |extensions| && extensions[i] == e;
              assert before[i] == e;
            }
          }
        }
      }
    }
  }

  /** The reference filter keeps exactly the extensions whose id is not in the set. */
  lemma {:induction false} KeepOthersMembership(extensions: seq<ConfiguredExtension>, ids: set<string>)
    ensures forall e :: e in KeepOthers(extensions, ids) <==> e in extensions && e.id !in ids
  {
    if |extensions| > 0 {
      KeepOthersMembership(extensions[..|extensions| - 1], ids);
      assert extensions == extensions[..|extensions| - 1] + [extensions[|extensions| - 1]];
    }
  }

  /** One more filter pass on the reference filter is the reference filter with one more id. */
  lemma {:induction false} WithoutIdOfKeepOthers(extensions: seq<ConfiguredExtension>, ids: set<string>, id: string)
    ensures WithoutId(KeepOthers(extensions, ids), id) == KeepOthers(extensions, ids + {id})
  {
    if |extensions| > 0 {
      var init := extensions[..|extensions| - 1];
      var last := extensions[|extensions| - 1];
      WithoutIdOfKeepOthers(init, ids, id);
      var kept := KeepOthers(init, ids);
      if last.id !in ids {
        var both := kept + [last];
        assert KeepOthers(extensions, ids) == both;
        assert both[..|both| - 1] == kept;
        assert WithoutId(both, id) == WithoutId(kept, id) + (if last.id != id then [last] else []);
      } else {
        assert KeepOthers(extensions, ids) == kept;
      }
    }
  }

  function IdsOf(removed: seq<ConfiguredExtension>): set<string> {
    set e | e in removed :: e.id
  }

  /**
   * The repeated comprehension equals one filter by the removed ids: every
   * extension sharing an id with a removed one goes, the others stay in order.
   */
  lemma {:induction false} WithoutEachIsOneFilter(extensions: seq<ConfiguredExtension>, removed: seq<ConfiguredExtension>)
    ensures WithoutEach(extensions, removed) == KeepOthers(extensions, IdsOf(removed))
  {
    if |removed| == 0 {
      assert IdsOf(removed) == {};
      KeepNothingRemoved(extensions);
    } else {
      var init := removed[..|removed| - 1];
      var last := removed[|removed| - 1];
      WithoutEachIsOneFilter(extensions, init);
      WithoutIdOfKeepOthers(extensions, IdsOf(init), last.id);
      assert IdsOf(removed) == IdsOf(init) + {last.id} by {
        assert removed == init + [last];
      }
    }
  }

  lemma {:induction false} KeepNothingRemoved(extensions: seq<ConfiguredExtension>)
    ensures KeepOthers(extensions, {}) == extensions
  {
    if |extensions| > 0 {
      KeepNothingRemoved(extensions[..|extensions| - 1]);
      assert extensions[..|extensions| - 1] + [extensions[|extensions| - 1]] == extensions;
    }
  }

  /** After removal an extension remains exactly when no removed row shares its id. */
  lemma RemovalMeaning(extensions: seq<ConfiguredExtension>, removed: seq<ConfiguredExtension>)
    ensures forall e :: e in WithoutEach(extensions, removed) <==> e in extensions && e.id !in IdsOf(removed)
  {
    WithoutEachIsOneFilter(extensions, removed);
    KeepOthersMembership(extensions, IdsOf(removed));
  }
}
