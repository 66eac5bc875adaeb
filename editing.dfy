/**
 * The inline edit of the Name column: the edit is accepted at once and the
 * rename mutation's optimistic response shows the new name; when the
 * mutation reports payload errors or fails, the row is written back with the
 * old name. A new edit is stopped while a rename is in flight.
 */
module Editing {
  import opened Wrappers
  import opened Rows

  /** What a `valueSetter` call captures: the row data and the two names. */
  datatype Rename = Rename(data: Edge, oldValue: string, newValue: string)

  /** How a rename mutation ends: `onCompleted` with its payload errors, or `onError`. */
  datatype MutationOutcome = Completed(payloadError: Option<seq<string>>) | Errored

  /** `{...data, node: {...data.node, name}}`: the row with only its name replaced. */
  function WithName(e: Edge, name: string): (r: Edge)
    ensures r.node.name == name
    ensures r.(node := r.node.(name := e.node.name)) == e
  {
    e.(node := e.node.(name := name))
  }

  /** Whether the row is written back: a non-empty list of payload errors, or a transport error. */
  predicate RollsBack(outcome: MutationOutcome)
    ensures outcome == Completed(None) || outcome == Completed(Some([])) ==> !RollsBack(outcome)
    ensures outcome == Errored ==> RollsBack(outcome)
    ensures outcome.Completed? && outcome.payloadError.Some? && outcome.payloadError.value != [] ==> RollsBack(outcome)
  {
    match outcome
    case Completed(payloadError) => payloadError.Some? && |payloadError.value| > 0
    case Errored => true
  }

  /** The rows after the optimistic response renames the row keyed `cursor`. */
  function Optimistic(rows: map<string, Edge>, cursor: string, newValue: string): (r: map<string, Edge>)
    ensures r.Keys == rows.Keys
    ensures forall c :: c in rows && c != cursor ==> r[c] == rows[c]
    ensures cursor in rows ==> r[cursor] == WithName(rows[cursor], newValue)
  {
    if cursor in rows then rows[cursor := WithName(rows[cursor], newValue)] else rows
  }

  /**
   * The rows after `updateData` writes back the captured row data with the
   * old name; a row no longer in the grid is left alone.
   */
  function RolledBack(rows: map<string, Edge>, edit: Rename): (r: map<string, Edge>)
    ensures r.Keys == rows.Keys
    ensures forall c :: c in rows && c != edit.data.cursor ==> r[c] == rows[c]
    ensures edit.data.cursor in rows ==> r[edit.data.cursor] == WithName(edit.data, edit.oldValue)
  {
    var c := edit.data.cursor;
    if c in rows then rows[c := WithName(edit.data, edit.oldValue)] else rows
  }

  /** The rows once the mutation of `edit` has ended with `outcome`. */
  function Settle(rows: map<string, Edge>, edit: Rename, outcome: MutationOutcome): (r: map<string, Edge>)
    ensures r.Keys == rows.Keys
    ensures !RollsBack(outcome) ==> r == rows
  {
    if RollsBack(outcome) then RolledBack(rows, edit) else rows
  }

  /**
   * A failed rename is undone exactly: renaming a row and then rolling back
   * with the name it had gives back the rows as they were.
   */
  lemma RollbackUndoesOptimistic(rows: map<string, Edge>, data: Edge, newValue: string)
    requires data.cursor in rows && rows[data.cursor] == data
    ensures RolledBack(Optimistic(rows, data.cursor, newValue), Rename(data, data.node.name, newValue)) == rows
  {
    var r := RolledBack(Optimistic(rows, data.cursor, newValue), Rename(data, data.node.name, newValue));
    assert r.Keys == rows.Keys;
    forall c | c in rows ensures r[c] == rows[c] {
      if c == data.cursor {
        assert r[c] == WithName(data, data.node.name);
      }
    }
  }

  /**
   * An edit of a row from its current name to `newValue`: the row ends with
   * the old name when the mutation rolls back and with the new name
   * otherwise, every other field of the row and every other row unchanged.
   */
  lemma EditEndsWithOneOfTheNames(rows: map<string, Edge>, data: Edge, newValue: string,
                                  outcome: MutationOutcome)
    requires data.cursor in rows && rows[data.cursor] == data
    ensures var r := Settle(Optimistic(rows, data.cursor, newValue), Rename(data, data.node.name, newValue), outcome);
      && r.Keys == rows.Keys
      && (forall c :: c in rows && c != data.cursor ==> r[c] == rows[c])
      && r[data.cursor] == WithName(data, if RollsBack(outcome) then data.node.name else newValue)
  {
  }

  /**
   * The rollback is unconditional: when a second rename of the same row has
   * been applied meanwhile, the first rename's failure still writes the
   * first rename's captured row and old name over it.
   */
  lemma RollbackOverwritesLaterRename(rows: map<string, Edge>, first: Rename, second: Rename,
                                      outcome: MutationOutcome)
    requires first.data.cursor in rows
    requires second.data.cursor == first.data.cursor
    requires RollsBack(outcome)
    ensures var c := first.data.cursor;
      var later := Optimistic(Optimistic(rows, c, first.newValue), c, second.newValue);
      && later[c].node.name == second.newValue
      && Settle(later, first, outcome)[c] == WithName(first.data, first.oldValue)
  {
  }

  /** The grid's rows keyed by `getRowId` and the rename mutations in flight, by issue number. */
  class RenameEditor {
    var rows: map<string, Edge>
    var inFlight: map<nat, Rename>
    var nextId: nat

    ghost predicate Valid()
      reads this
    {
      forall id :: id in inFlight ==> id < nextId
    }

    constructor (rows: map<string, Edge>)
      ensures Valid()
      ensures this.rows == rows && inFlight == map[] && nextId == 0
    {
      this.rows := rows;
      inFlight := map[];
      nextId := 0;
    }

    /** `onCellEditingStarted`: the editor is stopped while a rename is in flight. */
    method OnCellEditingStarted() returns (stopEditing: bool)
      ensures stopEditing <==> inFlight != map[]
    {
      stopEditing := inFlight != map[];
    }

    /**
     * `valueSetter`: issue the rename mutation, apply its optimistic
     * response, and accept the edit.
     */
    method ValueSetter(data: Edge, oldValue: string, newValue: string) returns (accepted: bool, id: nat)
      requires Valid()
      modifies this
      ensures Valid()
      ensures accepted
      ensures id == old(nextId) && id !in old(inFlight)
      ensures inFlight == old(inFlight)[id := Rename(data, oldValue, newValue)]
      ensures rows == Optimistic(old(rows), data.cursor, newValue)
    {
      id := nextId;
      inFlight := inFlight[id := Rename(data, oldValue, newValue)];
      nextId := nextId + 1;
      rows := Optimistic(rows, data.cursor, newValue);
      accepted := true;
    }

    /** `onCompleted`: roll back when the payload carries errors. */
    method OnCompleted(id: nat, payloadError: Option<seq<string>>)
      requires Valid()
      requires id in inFlight
      modifies this
      ensures Valid()
      ensures inFlight == old(inFlight) - {id} && nextId == old(nextId)
      ensures rows == Settle(old(rows), old(inFlight)[id], Completed(payloadError))
    {
      var edit := inFlight[id];
      inFlight := inFlight - {id};
      if payloadError.Some? && |payloadError.value| > 0 {
        rows := RolledBack(rows, edit);
      }
    }

    /** `onError`: roll back. */
    method OnError(id: nat)
      requires Valid()
      requires id in inFlight
      modifies this
      ensures Valid()
      ensures inFlight == old(inFlight) - {id} && nextId == old(nextId)
      ensures rows == Settle(old(rows), old(inFlight)[id], Errored)
    {
      var edit := inFlight[id];
      inFlight := inFlight - {id};
      rows := RolledBack(rows, edit);
    }
  }
}
