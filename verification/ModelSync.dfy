/** Reconciling the models stored for a provider with the models an administrator requests. */
module ModelSync {

  type Id = string

  // The fields a request sets on a row.
  datatype Settings = Settings(displayName: string, mode: string, contextWindow: int, maxOutputTokens: int,
                               inputCostPer1k: real, outputCostPer1k: real, isActive: bool, supportsStream: bool,
                               defaultTimeoutMs: int)

  datatype Input = Input(modelID: string, settings: Settings)

  datatype Row = Row(id: Id, providerID: Id, provider: string, modelID: string, modelName: string,
                     settings: Settings, inputPrice: real, outputPrice: real, enabled: bool)

  type Store = map<Id, Row>

  // What ListByProvider returns: the match on the provider name is as in the source.
  predicate Listed(row: Row, id: Id) { row.providerID == id || row.provider == id }

  predicate Requested(request: seq<Input>, modelID: string) {
    exists i :: 0 <= i < |request| && request[i].modelID == modelID
  }

  function Applied(row: Row, settings: Settings): Row {
    row.(settings := settings, inputPrice := settings.inputCostPer1k * 1000.0,
         outputPrice := settings.outputCostPer1k * 1000.0, enabled := settings.isActive)
  }

  ghost predicate Keyed(store: Store) {
    forall k | k in store :: store[k].id == k
  }

  class ModelRepo {
    var models: Store

    constructor (models: Store)
      ensures this.models == models
    {
      this.models := models;
    }

    method ListByProvider(id: Id) returns (rows: seq<Row>)
      ensures forall row :: row in rows <==> row in models.Values && Listed(row, id)
      ensures Keyed(models) ==> forall i, j :: 0 <= i < j < |rows| ==> rows[i].id != rows[j].id
    {
      rows := [];
      var keys := models.Keys;
      while keys != {}
        invariant keys <= models.Keys
        invariant forall k :: k in models && k !in keys && Listed(models[k], id) ==> models[k] in rows
        invariant forall row :: row in rows ==>
                    Listed(row, id) && exists k :: k in models && k !in keys && models[k] == row
        invariant Keyed(models) ==> forall i :: 0 <= i < |rows| ==> rows[i].id in models && rows[i].id !in keys
        invariant Keyed(models) ==> forall i, j :: 0 <= i < j < |rows| ==> rows[i].id != rows[j].id
        decreases keys
      {
        var k :| k in keys;
        keys := keys - {k};
        if models[k].providerID == id || models[k].provider == id {
          rows := rows + [models[k]];
        }
      }
    }

    method Update(row: Row)
      modifies this
      ensures models == old(models)[row.id := row]
    {
      models := models[row.id := row];
    }

    method Create(row: Row)
      modifies this
      ensures models == old(models)[row.id := row]
    {
      models := models[row.id := row];
    }

    method Delete(id: Id)
      modifies this
      ensures models == old(models) - {id}
    {
      models := models - {id};
    }
  }

  // ---- What is left ----

  ghost predicate Stored(store: Store, id: Id, modelID: string) {
    exists k :: k in store && Listed(store[k], id) && store[k].modelID == modelID
  }

  // A row of the provider's own, enabled or not.
  ghost predicate Owned(store: Store, id: Id, modelID: string) {
    exists k :: k in store && store[k].providerID == id && store[k].modelID == modelID
  }

  // What the router goes by: an enabled row of the provider's own, of the model.
  ghost predicate Found(store: Store, id: Id, modelID: string) {
    exists k :: k in store && store[k].providerID == id && store[k].modelID == modelID && store[k].enabled
  }

  // The router takes a name for the model id, the model name or the row id.
  predicate Answers(row: Row, id: Id, name: string) {
    row.providerID == id && row.enabled && (row.modelID == name || row.modelName == name || row.id == name)
  }

  ghost predicate Routable(store: Store, id: Id, name: string) {
    exists k :: k in store && Answers(store[k], id, name)
  }

  // rows is some listing of the provider's rows; the walk over the store has no fixed order.
  ghost predicate Listing(rows: seq<Row>, store: Store, id: Id) {
    forall row :: row in rows <==> row in store.Values && Listed(row, id)
  }

  // existingByModelID: the last row listed under each model wins.
  function Winners(rows: seq<Row>): map<string, Row> {
    if rows == [] then map[] else Winners(rows[..|rows|-1])[rows[|rows|-1].modelID := rows[|rows|-1]]
  }

  predicate Wins(winners: map<string, Row>, row: Row) {
    row.modelID in winners && winners[row.modelID] == row
  }

  // The last of the first n requests for a model, or -1.
  function LastIndex(request: seq<Input>, n: nat, modelID: string): (i: int)
    requires n <= |request|
    ensures -1 <= i < n
  {
    if n == 0 then -1 else if request[n-1].modelID == modelID then n - 1 else LastIndex(request, n - 1, modelID)
  }

  // row with the settings of the last of the first n requests for its model.
  function Latest(row: Row, request: seq<Input>, n: nat): Row
    requires n <= |request|
  {
    var i := LastIndex(request, n, row.modelID);
    if i < 0 then row else Applied(row, request[i].settings)
  }

  function NewRow(id: Id, provider: string, m: Input, newID: Id): Row {
    Applied(Row(newID, id, provider, m.modelID, m.modelID, m.settings, 0.0, 0.0, true), m.settings)
  }

  // A row goes exactly when it was listed and its model is not requested.
  ghost predicate Removed(before: Store, after: Store, id: Id, request: seq<Input>) {
    forall k | k in before :: k in after <==> !(Listed(before[k], id) && !Requested(request, before[k].modelID))
  }

  // What a row that stays becomes.
  function Kept(row: Row, request: seq<Input>, winners: map<string, Row>): Row {
    if Wins(winners, row) then Latest(row, request, |request|) else row
  }

  // Of the rows that stay, those listed last under their models get what the last request says.
  ghost predicate Rewritten(before: Store, after: Store, request: seq<Input>, winners: map<string, Row>) {
    forall k | k in before && k in after :: after[k] == Kept(before[k], request, winners)
  }

  // The whole store that reconciling a non-empty request leaves, for the listing it went by.
  ghost predicate Reconciled(before: Store, after: Store, id: Id, provider: string, request: seq<Input>, ids: seq<Id>,
                             existing: seq<Row>)
    requires |ids| == |request|
  {
    && Keyed(after) && Listing(existing, before, id)
    && Removed(before, after, id, request) && Rewritten(before, after, request, Winners(existing))
    // Each request for a model without a row adds one, and no other row is new.
    && (forall i | 0 <= i < |request| :: !Stored(before, id, request[i].modelID) ==>
          ids[i] in after && after[ids[i]] == NewRow(id, provider, request[i], ids[i]))
    && (forall k | k in after && k !in before ::
          exists i :: 0 <= i < |request| && ids[i] == k && !Stored(before, id, request[i].modelID))
  }

  lemma {:induction false} WinnersAreListed(rows: seq<Row>)
    ensures forall m | m in Winners(rows) :: Winners(rows)[m] in rows && Winners(rows)[m].modelID == m
    ensures forall row | row in rows :: row.modelID in Winners(rows)
  {
    if rows != [] {
      WinnersAreListed(rows[..|rows|-1]);
      assert rows == rows[..|rows|-1] + [rows[|rows|-1]];
    }
  }

  // A row wins when no later row listed is of its model.
  lemma {:induction false} WinnersAreLast(rows: seq<Row>, i: nat)
    requires i < |rows| && forall j :: i < j < |rows| ==> rows[j].modelID != rows[i].modelID
    ensures rows[i].modelID in Winners(rows) && Winners(rows)[rows[i].modelID] == rows[i]
  {
    if i < |rows| - 1 { WinnersAreLast(rows[..|rows|-1], i); }
  }

  lemma WinnersOf(rows: seq<Row>, store: Store, id: Id)
    requires Listing(rows, store, id) && Keyed(store)
    ensures forall m :: m in Winners(rows) <==> Stored(store, id, m)
    ensures forall m | m in Winners(rows) ::
              var row := Winners(rows)[m];
              row.modelID == m && Listed(row, id) && row.id in store && store[row.id] == row
  {
    WinnersAreListed(rows);
    forall m
      ensures m in Winners(rows) <==> Stored(store, id, m)
      ensures m in Winners(rows) ==>
                var row := Winners(rows)[m];
                row.modelID == m && Listed(row, id) && row.id in store && store[row.id] == row
    {
      if m in Winners(rows) {
        assert Winners(rows)[m] in store.Values;
      }
      if Stored(store, id, m) {
        var k :| k in store && Listed(store[k], id) && store[k].modelID == m;
        assert store[k] in store.Values;
        assert store[k] in rows;
      }
    }
  }

  lemma {:induction false} LastIndexIsLast(request: seq<Input>, n: nat, modelID: string)
    requires n <= |request|
    ensures var i := LastIndex(request, n, modelID);
            && (i >= 0 ==> request[i].modelID == modelID)
            && forall j :: i < j < n ==> request[j].modelID != modelID
  {
    if n > 0 { LastIndexIsLast(request, n - 1, modelID); }
  }

  // The models listed for the provider are then exactly the requested ones.
  lemma StoredIsRequested(before: Store, after: Store, id: Id, provider: string, request: seq<Input>, ids: seq<Id>,
                          existing: seq<Row>, modelID: string)
    requires |ids| == |request| && Reconciled(before, after, id, provider, request, ids, existing)
    ensures Stored(after, id, modelID) <==> Requested(request, modelID)
  {
    if Stored(after, id, modelID) {
      var k :| k in after && Listed(after[k], id) && after[k].modelID == modelID;
      if k in before {
        assert Listed(before[k], id) && before[k].modelID == modelID;
      }
    }
    if Requested(request, modelID) {
      var i :| 0 <= i < |request| && request[i].modelID == modelID;
      if Stored(before, id, modelID) {
        var k :| k in before && Listed(before[k], id) && before[k].modelID == modelID;
        assert k in after && Listed(after[k], id) && after[k].modelID == modelID;
      } else {
        assert Listed(after[ids[i]], id) && after[ids[i]].modelID == modelID;
      }
    }
  }

  ghost predicate Carries(row: Row, id: Id, input: Input) {
    Listed(row, id) && row.modelID == input.modelID && row == Applied(row, input.settings)
  }

  // Each requested model has a listed row with what the last request for it says.
  lemma LastRequestIsCarried(before: Store, after: Store, id: Id, provider: string, request: seq<Input>, ids: seq<Id>,
                             existing: seq<Row>, i: nat)
    requires |ids| == |request| && Reconciled(before, after, id, provider, request, ids, existing) && Keyed(before)
    requires i < |request| && LastIndex(request, |request|, request[i].modelID) == i
    ensures exists k :: k in after && Carries(after[k], id, request[i])
  {
    var m := request[i].modelID;
    if Stored(before, id, m) {
      var k := WinnerCarries(before, after, id, request, existing, i);
      AppliedCarries(before[k], id, request[i]);
    } else {
      var row := Row(ids[i], id, provider, m, m, request[i].settings, 0.0, 0.0, true);
      AppliedCarries(row, id, request[i]);
      assert after[ids[i]] == Applied(row, request[i].settings);
    }
  }

  lemma AppliedCarries(row: Row, id: Id, input: Input)
    requires Listed(row, id) && row.modelID == input.modelID
    ensures Carries(Applied(row, input.settings), id, input)
  {
  }

  lemma WinnerCarries(before: Store, after: Store, id: Id, request: seq<Input>, existing: seq<Row>, i: nat)
    returns (k: Id)
    requires Listing(existing, before, id) && Keyed(before)
    requires Removed(before, after, id, request) && Rewritten(before, after, request, Winners(existing))
    requires i < |request| && LastIndex(request, |request|, request[i].modelID) == i
    requires Stored(before, id, request[i].modelID)
    ensures k in before && Listed(before[k], id) && before[k].modelID == request[i].modelID
    ensures k in after && after[k] == Applied(before[k], request[i].settings)
  {
    var m := request[i].modelID;
    WinnersOf(existing, before, id);
    k := Winners(existing)[m].id;
    assert Wins(Winners(existing), before[k]) && Requested(request, m);
  }

  // Afterwards the provider owns a row of a model exactly when the model is requested and a row
  // of its own was there before, or no listed row at all.
  lemma OwnedIff(before: Store, after: Store, id: Id, provider: string, request: seq<Input>, ids: seq<Id>,
                 existing: seq<Row>, modelID: string)
    requires |ids| == |request| && Reconciled(before, after, id, provider, request, ids, existing)
    ensures Owned(after, id, modelID)
       <==> Requested(request, modelID) && (Owned(before, id, modelID) || !Stored(before, id, modelID))
  {
    if Owned(after, id, modelID) {
      var k :| k in after && after[k].providerID == id && after[k].modelID == modelID;
      if k in before {
        assert before[k].providerID == id && before[k].modelID == modelID;
      }
    }
    if Requested(request, modelID) {
      var i :| 0 <= i < |request| && request[i].modelID == modelID;
      if Owned(before, id, modelID) {
        var k :| k in before && before[k].providerID == id && before[k].modelID == modelID;
        assert k in after && after[k].providerID == id && after[k].modelID == modelID;
      } else if !Stored(before, id, modelID) {
        assert after[ids[i]].providerID == id && after[ids[i]].modelID == modelID;
      }
    }
  }

  // So the owned models are the requested ones if and only if no requested model is listed only
  // by rows of other providers.
  lemma OwnedIsRequestedIff(before: Store, after: Store, id: Id, provider: string, request: seq<Input>, ids: seq<Id>,
                            existing: seq<Row>)
    requires |ids| == |request| && Reconciled(before, after, id, provider, request, ids, existing)
    ensures (forall m :: Owned(after, id, m) <==> Requested(request, m))
       <==> (forall m :: Requested(request, m) && Stored(before, id, m) ==> Owned(before, id, m))
  {
    forall m
      ensures Owned(after, id, m) <==> Requested(request, m) && (Owned(before, id, m) || !Stored(before, id, m))
    {
      OwnedIff(before, after, id, provider, request, ids, existing, m);
    }
  }

  // The router finds the provider under a name afterwards exactly when a row of its own that
  // stays answers to that name as it has become, or a row that is added does.
  lemma RoutableIff(before: Store, after: Store, id: Id, provider: string, request: seq<Input>, ids: seq<Id>,
                    existing: seq<Row>, name: string)
    requires |ids| == |request| && Reconciled(before, after, id, provider, request, ids, existing)
    ensures Routable(after, id, name)
       <==> || (exists k :: k in before && Requested(request, before[k].modelID)
                            && Answers(Kept(before[k], request, Winners(existing)), id, name))
            || (exists i :: 0 <= i < |request| && !Stored(before, id, request[i].modelID)
                            && Answers(NewRow(id, provider, request[i], ids[i]), id, name))
  {
    if Routable(after, id, name) {
      var k :| k in after && Answers(after[k], id, name);
      if k in before {
        assert after[k] == Kept(before[k], request, Winners(existing));
      } else {
        var i :| 0 <= i < |request| && ids[i] == k && !Stored(before, id, request[i].modelID);
        assert Answers(NewRow(id, provider, request[i], ids[i]), id, name);
      }
    }
    if k :| k in before && Requested(request, before[k].modelID)
            && Answers(Kept(before[k], request, Winners(existing)), id, name) {
      assert k in after && Answers(after[k], id, name);
    }
    if i :| 0 <= i < |request| && !Stored(before, id, request[i].modelID)
            && Answers(NewRow(id, provider, request[i], ids[i]), id, name) {
      assert ids[i] in after && Answers(after[ids[i]], id, name);
    }
  }

  // A model has an enabled row of the provider's own afterwards exactly when it is requested and,
  // if it was listed, some own row of it ends up enabled: the row listed last takes the flag of the
  // last request, the others keep theirs. If it was not listed, some request for it must be active.
  lemma FoundIff(before: Store, after: Store, id: Id, provider: string, request: seq<Input>, ids: seq<Id>,
                 existing: seq<Row>, modelID: string)
    requires |ids| == |request| && Reconciled(before, after, id, provider, request, ids, existing)
    ensures Found(after, id, modelID)
       <==> && Requested(request, modelID)
            && if Stored(before, id, modelID)
               then exists k :: k in before && before[k].providerID == id && before[k].modelID == modelID
                                && Kept(before[k], request, Winners(existing)).enabled
               else exists i :: 0 <= i < |request| && request[i].modelID == modelID && request[i].settings.isActive
  {
    if Found(after, id, modelID) {
      var k :| k in after && after[k].providerID == id && after[k].modelID == modelID && after[k].enabled;
      if k in before {
        assert before[k].providerID == id && before[k].modelID == modelID;
        assert Kept(before[k], request, Winners(existing)).enabled;
      } else {
        var i :| 0 <= i < |request| && ids[i] == k && !Stored(before, id, request[i].modelID);
        assert request[i].modelID == modelID && request[i].settings.isActive;
      }
    }
    if Requested(request, modelID) && Stored(before, id, modelID) {
      if k :| k in before && before[k].providerID == id && before[k].modelID == modelID
              && Kept(before[k], request, Winners(existing)).enabled {
        assert k in after && after[k].providerID == id && after[k].modelID == modelID && after[k].enabled;
      }
    } else if !Stored(before, id, modelID) {
      if i :| 0 <= i < |request| && request[i].modelID == modelID && request[i].settings.isActive {
        assert ids[i] in after && after[ids[i]].providerID == id && after[ids[i]].enabled;
      }
    }
  }

  // A requested model need not be found: its row is disabled unless the request says otherwise.
  lemma InactiveIsNotFound(s: Settings, after: Store, provider: string, newID: Id, existing: seq<Row>)
    requires !s.isActive && Reconciled(map[], after, "p", provider, [Input("m", s)], [newID], existing)
    ensures Owned(after, "p", "m") && !Found(after, "p", "m")
  {
    var before: Store, request := map[], [Input("m", s)];
    assert request[0].modelID == "m" && Requested(request, "m");
    OwnedIff(before, after, "p", provider, request, [newID], existing, "m");
    FoundIff(before, after, "p", provider, request, [newID], existing, "m");
  }

  // Rows that do not list under the provider are neither changed, nor removed, nor added.
  lemma OthersAreUntouched(before: Store, after: Store, id: Id, provider: string, request: seq<Input>, ids: seq<Id>,
                           existing: seq<Row>, k: Id)
    requires |ids| == |request| && Reconciled(before, after, id, provider, request, ids, existing) && Keyed(before)
    requires FreshIDs(ids, before)
    ensures k in before && !Listed(before[k], id) ==> k in after && after[k] == before[k]
    ensures k in after && !Listed(after[k], id) ==> k in before && before[k] == after[k]
  {
    WinnersOf(existing, before, id);
  }

  // A row, whoever owns it, stays as it is exactly when it is not listed, or its model is
  // requested and either another row of the model is listed last, or it carries the last
  // requested settings already.
  lemma UntouchedIff(before: Store, after: Store, id: Id, provider: string, request: seq<Input>, ids: seq<Id>,
                     existing: seq<Row>, k: Id)
    requires |ids| == |request| && Reconciled(before, after, id, provider, request, ids, existing) && Keyed(before)
    requires k in before
    ensures var row := before[k];
            var last := LastIndex(request, |request|, row.modelID);
            ((k in after && after[k] == row)
             <==> (Listed(row, id) ==>
                     last >= 0 && (Wins(Winners(existing), row) ==> row == Applied(row, request[last].settings))))
  {
    WinnersOf(existing, before, id);
    LastIndexIsLast(request, |request|, before[k].modelID);
  }

  // All rows of other providers survive exactly when none of them carries this provider's id
  // as its provider name under a model that is not requested.
  lemma OtherProvidersSurviveWhen(before: Store, after: Store, id: Id, provider: string, request: seq<Input>,
                                  ids: seq<Id>, existing: seq<Row>)
    requires |ids| == |request| && Reconciled(before, after, id, provider, request, ids, existing)
    ensures (forall k | k in before && before[k].providerID != id :: k in after)
       <==> (forall k | k in before && before[k].providerID != id ::
               before[k].provider == id ==> Requested(request, before[k].modelID))
  {
  }

  // That can fail: a row of provider "q" whose provider name is "p" is removed with p's own.
  lemma OtherProviderMayLoseRow(s: Settings, after: Store, provider: string, newID: Id, existing: seq<Row>)
    requires var row := Row("1", "q", "p", "m", "m", s, 0.0, 0.0, true);
             Reconciled(map["1" := row], after, "p", provider, [Input("n", s)], [newID], existing)
    ensures "1" !in after
  {
    assert "m"[0] != "n"[0];
  }

  // And when its model is the requested one, the row of "q" is overwritten, and "p" still owns none.
  lemma OtherProviderMayBeOverwritten(s: Settings, s': Settings, after: Store, provider: string, newID: Id,
                                      existing: seq<Row>)
    requires var row := Row("1", "q", "p", "m", "m", s, 0.0, 0.0, true);
             Reconciled(map["1" := row], after, "p", provider, [Input("m", s')], [newID], existing)
    ensures "1" in after && after["1"].providerID == "q" && after["1"].settings == s'
    ensures !Owned(after, "p", "m")
  {
    var row := Row("1", "q", "p", "m", "m", s, 0.0, 0.0, true);
    var before, request := map["1" := row], [Input("m", s')];
    assert "p"[0] != "q"[0];
    assert before["1"] == row && Stored(before, "p", "m") && request[0].modelID == "m";
    WinnersOf(existing, before, "p");
    assert Wins(Winners(existing), row);
    OwnedIff(before, after, "p", provider, request, [newID], existing, "m");
  }

  // ---- The two loops ----

  // The store and the index as the merge loop changes them.
  datatype Work = Work(store: Store, index: map<string, Row>)

  // The row that one request writes: the indexed one with new settings, or a new one.
  function MergedRow(id: Id, provider: string, m: Input, newID: Id, index: map<string, Row>): Row {
    if m.modelID in index then Applied(index[m.modelID], m.settings) else NewRow(id, provider, m, newID)
  }

  // One turn of the merge loop.
  ghost function MergeNext(w: Work, id: Id, provider: string, m: Input, newID: Id): Work {
    var row := MergedRow(id, provider, m, newID, w.index);
    Work(w.store[row.id := row], if m.modelID in w.index then w.index[m.modelID := row] else w.index)
  }

  // The turns from request n on.
  ghost function MergeRest(w: Work, id: Id, provider: string, request: seq<Input>, ids: seq<Id>, n: nat): Work
    requires n <= |request| == |ids|
    decreases |request| - n
  {
    if n == |request| then w
    else MergeRest(MergeNext(w, id, provider, request[n], ids[n]), id, provider, request, ids, n + 1)
  }

  ghost predicate FreshIDs(ids: seq<Id>, before: Store) {
    && (forall i, j :: 0 <= i < j < |ids| ==> ids[i] != ids[j])
    && (forall i :: 0 <= i < |ids| ==> ids[i] !in before)
  }

  // What the rows of before have become after the first n requests.
  ghost predicate Updated(before: Store, store: Store, request: seq<Input>, n: nat, winners: map<string, Row>)
    requires n <= |request|
  {
    forall k | k in before ::
      k in store && store[k] == if Wins(winners, before[k]) then Latest(before[k], request, n) else before[k]
  }

  // The rows that the first n requests have added.
  ghost predicate Added(before: Store, store: Store, id: Id, provider: string, request: seq<Input>, n: nat,
                        ids: seq<Id>, winners: map<string, Row>)
    requires n <= |request| == |ids|
  {
    && (forall i | 0 <= i < n && request[i].modelID !in winners ::
          ids[i] in store && store[ids[i]] == NewRow(id, provider, request[i], ids[i]))
    && (forall k | k in store && k !in before :: NewAt(request, n, ids, winners, k))
  }

  ghost predicate NewAt(request: seq<Input>, n: nat, ids: seq<Id>, winners: map<string, Row>, k: Id)
    requires n <= |request| == |ids|
  {
    exists i :: 0 <= i < n && ids[i] == k && request[i].modelID !in winners
  }

  // The index holds the winners as they are now.
  ghost predicate Indexed(index: map<string, Row>, request: seq<Input>, n: nat, winners: map<string, Row>)
    requires n <= |request|
  {
    index.Keys == winners.Keys && forall m | m in winners :: index[m] == Latest(winners[m], request, n)
  }

  ghost predicate WinnersIn(winners: map<string, Row>, before: Store) {
    forall m | m in winners :: winners[m].modelID == m && winners[m].id in before && before[winners[m].id] == winners[m]
  }

  // The state of the merge loop before request n.
  ghost predicate Merging(before: Store, w: Work, id: Id, provider: string, request: seq<Input>, n: nat, ids: seq<Id>,
                          winners: map<string, Row>)
    requires n <= |request| == |ids|
  {
    && Updated(before, w.store, request, n, winners)
    && Added(before, w.store, id, provider, request, n, ids, winners)
    && Indexed(w.index, request, n, winners)
  }

  lemma LatestNext(row: Row, request: seq<Input>, n: nat)
    requires n < |request|
    ensures Latest(row, request, n + 1)
         == if request[n].modelID == row.modelID then Applied(Latest(row, request, n), request[n].settings)
            else Latest(row, request, n)
  {
  }

  lemma IndexNext(w: Work, id: Id, provider: string, request: seq<Input>, n: nat, newID: Id, winners: map<string, Row>)
    requires n < |request| && Indexed(w.index, request, n, winners)
    requires forall m | m in winners :: winners[m].modelID == m
    ensures Indexed(MergeNext(w, id, provider, request[n], newID).index, request, n + 1, winners)
  {
    forall m | m in winners
      ensures MergeNext(w, id, provider, request[n], newID).index[m] == Latest(winners[m], request, n + 1)
    {
      LatestNext(winners[m], request, n);
    }
  }

  // The row that is written: the winner of the model, or a new one.
  lemma WrittenRow(w: Work, id: Id, provider: string, request: seq<Input>, n: nat, newID: Id, winners: map<string, Row>)
    requires n < |request| && Indexed(w.index, request, n, winners)
    requires forall m | m in winners :: winners[m].modelID == m
    ensures var m := request[n].modelID;
            MergedRow(id, provider, request[n], newID, w.index)
            == if m in winners then Latest(winners[m], request, n + 1) else NewRow(id, provider, request[n], newID)
  {
    var m := request[n].modelID;
    if m in winners { LatestNext(winners[m], request, n); }
  }

  lemma UpdateNext(before: Store, store: Store, request: seq<Input>, n: nat, row: Row, winners: map<string, Row>)
    requires n < |request| && Updated(before, store, request, n, winners)
    requires Keyed(before) && WinnersIn(winners, before)
    requires if request[n].modelID in winners then row == Latest(winners[request[n].modelID], request, n + 1)
             else row.id !in before
    ensures Updated(before, store[row.id := row], request, n + 1, winners)
  {
    forall k | k in before
      ensures store[row.id := row][k] == if Wins(winners, before[k]) then Latest(before[k], request, n + 1)
                else before[k]
    {
      LatestNext(before[k], request, n);
    }
  }

  lemma AddNext(before: Store, store: Store, id: Id, provider: string, request: seq<Input>, n: nat, ids: seq<Id>,
                row: Row, winners: map<string, Row>)
    requires n < |request| == |ids| && Added(before, store, id, provider, request, n, ids, winners)
    requires FreshIDs(ids, before)
    requires if request[n].modelID in winners then row.id in before else row == NewRow(id, provider, request[n], ids[n])
    ensures Added(before, store[row.id := row], id, provider, request, n + 1, ids, winners)
  {
    var store' := store[row.id := row];
    forall k | k in store' && k !in before
      ensures NewAt(request, n + 1, ids, winners, k)
    {
      if k != row.id { assert NewAt(request, n, ids, winners, k); }
    }
    forall i | 0 <= i < n + 1 && request[i].modelID !in winners
      ensures ids[i] in store' && store'[ids[i]] == NewRow(id, provider, request[i], ids[i])
    {
      assert ids[i] !in before && (i < n ==> ids[i] != ids[n]);
    }
  }

  lemma MergeStep(before: Store, w: Work, id: Id, provider: string, request: seq<Input>, n: nat, ids: seq<Id>,
                  winners: map<string, Row>)
    requires n < |request| == |ids| && Merging(before, w, id, provider, request, n, ids, winners)
    requires FreshIDs(ids, before) && Keyed(before) && WinnersIn(winners, before)
    ensures Merging(before, MergeNext(w, id, provider, request[n], ids[n]), id, provider, request, n + 1, ids, winners)
  {
    var row := MergedRow(id, provider, request[n], ids[n], w.index);
    IndexNext(w, id, provider, request, n, ids[n], winners);
    WrittenRow(w, id, provider, request, n, ids[n], winners);
    UpdateNext(before, w.store, request, n, row, winners);
    AddNext(before, w.store, id, provider, request, n, ids, row, winners);
  }

  lemma {:induction false} MergeRestMerges(before: Store, w: Work, id: Id, provider: string, request: seq<Input>,
                                           ids: seq<Id>, n: nat, winners: map<string, Row>)
    requires n <= |request| == |ids| && Merging(before, w, id, provider, request, n, ids, winners)
    requires FreshIDs(ids, before) && Keyed(before) && WinnersIn(winners, before)
    ensures Merging(before, MergeRest(w, id, provider, request, ids, n), id, provider, request, |request|, ids, winners)
    decreases |request| - n
  {
    if n < |request| {
      MergeStep(before, w, id, provider, request, n, ids, winners);
      MergeRestMerges(before, MergeNext(w, id, provider, request[n], ids[n]), id, provider, request, ids, n + 1,
                      winners);
    }
  }

  // A request sets the settings of a row, its prices for a million tokens and whether the router
  // sees it; whose row it is, and of what, stays.
  lemma AppliedMeans(row: Row, s: Settings)
    ensures Applied(row, s) == Row(row.id, row.providerID, row.provider, row.modelID, row.modelName, s,
                                   1000.0 * s.inputCostPer1k, 1000.0 * s.outputCostPer1k, s.isActive)
  {
  }

  // A new row is the provider's own and bears the model's id as name.
  lemma NewRowMeans(id: Id, provider: string, m: Input, newID: Id)
    ensures NewRow(id, provider, m, newID)
         == Row(newID, id, provider, m.modelID, m.modelID, m.settings,
                1000.0 * m.settings.inputCostPer1k, 1000.0 * m.settings.outputCostPer1k, m.settings.isActive)
  {
  }

  // Deleting the listed rows of models not requested finishes the job.
  lemma DeleteFinishes(before: Store, store: Store, id: Id, provider: string, request: seq<Input>, ids: seq<Id>,
                       existing: seq<Row>, gone: set<Id>)
    requires |request| == |ids| && Listing(existing, before, id) && Keyed(before) && FreshIDs(ids, before)
    requires Updated(before, store, request, |request|, Winners(existing))
    requires Added(before, store, id, provider, request, |request|, ids, Winners(existing))
    requires forall k :: k in gone <==> k in before && Listed(before[k], id) && !Requested(request, before[k].modelID)
    ensures Reconciled(before, store - gone, id, provider, request, ids, existing)
  {
    var after := store - gone;
    WinnersOf(existing, before, id);
    forall k | k in after
      ensures after[k].id == k
      ensures k !in before ==> exists i :: 0 <= i < |request| && ids[i] == k && !Stored(before, id, request[i].modelID)
    {
      if k !in before {
        assert NewAt(request, |request|, ids, Winners(existing), k);
      }
    }
  }

  lemma GoneIsRight(before: Store, id: Id, request: seq<Input>, existing: seq<Row>, requested: set<string>,
                    gone: set<Id>)
    requires Keyed(before) && Listing(existing, before, id)
    requires forall m :: m in requested <==> Requested(request, m)
    requires forall k :: k in gone <==>
               exists i :: 0 <= i < |existing| && existing[i].id == k && existing[i].modelID !in requested
    ensures forall k :: k in gone <==> k in before && Listed(before[k], id) && !Requested(request, before[k].modelID)
  {
    forall k
      ensures k in gone <==> k in before && Listed(before[k], id) && !Requested(request, before[k].modelID)
    {
      if k in gone {
        var i :| 0 <= i < |existing| && existing[i].id == k && existing[i].modelID !in requested;
        assert existing[i] in existing;
        assert existing[i] in before.Values;
      }
      if k in before && Listed(before[k], id) {
        assert before[k] in before.Values;
        assert before[k] in existing;
      }
    }
  }

  ghost function ModelIDs(request: seq<Input>, n: nat): set<string>
    requires n <= |request|
  {
    if n == 0 then {} else ModelIDs(request, n - 1) + {request[n-1].modelID}
  }

  lemma {:induction false} ModelIDsAreRequested(request: seq<Input>, n: nat, m: string)
    requires n <= |request|
    ensures m in ModelIDs(request, n) <==> exists i :: 0 <= i < n && request[i].modelID == m
  {
    if n > 0 { ModelIDsAreRequested(request, n - 1, m); }
  }

  class ProviderHandler {
    const repo: ModelRepo

    constructor (repo: ModelRepo)
      ensures this.repo == repo
    {
      this.repo := repo;
    }

    // The model part of Update. ids are the identifiers uuid.New hands out: new and distinct.
    // existing is the listing the call went by.
    method Reconcile(id: Id, provider: string, request: seq<Input>, ids: seq<Id>) returns (ghost existing: seq<Row>)
      requires Keyed(repo.models) && |ids| == |request|
      requires FreshIDs(ids, repo.models)
      modifies repo
      ensures request == [] ==> repo.models == old(repo.models)
      ensures request != [] ==> Reconciled(old(repo.models), repo.models, id, provider, request, ids, existing)
    {
      existing := [];
      if request == [] { return; }
      ghost var before := repo.models;
      var rows := repo.ListByProvider(id);
      existing := rows;
      var requested := Merge(id, provider, request, ids, rows);
      ghost var merged := repo.models;
      ghost var gone := DeleteOthers(rows, requested);
      forall m ensures m in requested <==> Requested(request, m) { ModelIDsAreRequested(request, |request|, m); }
      GoneIsRight(before, id, request, rows, requested, gone);
      DeleteFinishes(before, merged, id, provider, request, ids, rows, gone);
    }

    method Merge(id: Id, provider: string, request: seq<Input>, ids: seq<Id>, existing: seq<Row>)
      returns (requested: set<string>)
      requires Keyed(repo.models) && |ids| == |request|
      requires FreshIDs(ids, repo.models) && Listing(existing, repo.models, id)
      modifies repo
      ensures Updated(old(repo.models), repo.models, request, |request|, Winners(existing))
      ensures Added(old(repo.models), repo.models, id, provider, request, |request|, ids, Winners(existing))
      ensures requested == ModelIDs(request, |request|)
    {
      ghost var before := repo.models;
      var existingByModelID := IndexRows(existing);
      WinnersOf(existing, before, id);
      requested := MergeLoop(id, provider, request, ids, existingByModelID);
      MergeRestMerges(before, Work(before, existingByModelID), id, provider, request, ids, 0, existingByModelID);
    }

    method MergeLoop(id: Id, provider: string, request: seq<Input>, ids: seq<Id>, index0: map<string, Row>)
      returns (requested: set<string>)
      requires |ids| == |request|
      modifies repo
      ensures repo.models == MergeRest(Work(old(repo.models), index0), id, provider, request, ids, 0).store
      ensures requested == ModelIDs(request, |request|)
    {
      ghost var before := repo.models;
      var existingByModelID := index0;
      requested := {};
      for n := 0 to |request|
        invariant MergeRest(Work(repo.models, existingByModelID), id, provider, request, ids, n)
               == MergeRest(Work(before, index0), id, provider, request, ids, 0)
        invariant requested == ModelIDs(request, n)
      {
        requested := requested + {request[n].modelID};
        existingByModelID := MergeOne(id, provider, request[n], ids[n], existingByModelID);
      }
    }

    method MergeOne(id: Id, provider: string, m: Input, newID: Id, index0: map<string, Row>)
      returns (index: map<string, Row>)
      modifies repo
      ensures var row := MergedRow(id, provider, m, newID, index0);
              && repo.models == old(repo.models)[row.id := row]
              && index == if m.modelID in index0 then index0[m.modelID := row] else index0
    {
      index := index0;
      if m.modelID in index {
        var row := Applied(index[m.modelID], m.settings);
        index := index[m.modelID := row];
        repo.Update(row);
      } else {
        repo.Create(Applied(Row(newID, id, provider, m.modelID, m.modelID, m.settings, 0.0, 0.0, true), m.settings));
      }
    }

    method DeleteOthers(existing: seq<Row>, requested: set<string>) returns (ghost gone: set<Id>)
      modifies repo
      ensures forall k :: k in gone <==>
                exists i :: 0 <= i < |existing| && existing[i].id == k && existing[i].modelID !in requested
      ensures repo.models == old(repo.models) - gone
    {
      gone := {};
      for n := 0 to |existing|
        invariant forall k :: k in gone <==>
                    exists i :: 0 <= i < n && existing[i].id == k && existing[i].modelID !in requested
        invariant repo.models == old(repo.models) - gone
      {
        if existing[n].modelID !in requested {
          repo.Delete(existing[n].id);
          gone := gone + {existing[n].id};
        }
      }
    }

    static method IndexRows(rows: seq<Row>) returns (byModelID: map<string, Row>)
      ensures byModelID == Winners(rows)
    {
      byModelID := map[];
      for n := 0 to |rows|
        invariant byModelID == Winners(rows[..n])
      {
        assert rows[..n+1][..n] == rows[..n];
        byModelID := byModelID[rows[n].modelID := rows[n]];
      }
      assert rows[..|rows|] == rows;
    }
  }
}
