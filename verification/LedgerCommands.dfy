/**
 The command rows that ledger transactions write are steps of the command queue, so what holds of every run
 of the queue holds of the commands of the ledger, with any workers in between.
 */
module LedgerCommands {
  import opened Options
  import opened OrderLedger
  import CommandQueue

  /** The table is unchanged, or changed by one permitted step of the queue that hands nothing out. */
  ghost predicate QueueStep(before: seq<CommandQueue.CommandRow>, after: seq<CommandQueue.CommandRow>) {
    after == before
    || exists step :: CommandQueue.Permitted(step) && CommandQueue.Next(before, step, after, None)
  }

  lemma {:induction false} LedgerStepIsQueueStep(t: Tables, cfg: Config, s: Step)
    requires s.Transit? && s.transition.command.Some? ==> s.transition.command.value.1 != CommandQueue.Pending
    ensures QueueStep(t.commands, Apply(t, cfg, s).0.commands)
  {
    hide FindByCloid, FindOrCreate, MergeTransport, MergeReconciled, RowAllowed, UpdatedRow, TransferredCloid;
    hide CloseReservation, ConsumeReservation, FilledRow, UpsertPosition, Dispatches, SweptReservations, NewReservation;
    var after := Apply(t, cfg, s).0.commands;
    match s
    case Place(p) =>
      assert CommandQueue.Permitted(CommandQueue.Insert(PlaceCommand(t, cfg, p)));
      assert after != t.commands ==> CommandQueue.Next(t.commands, CommandQueue.Insert(PlaceCommand(t, cfg, p)), after, None);
    case Transit(x) =>
      if after != t.commands {
        var (id, status) := x.command.value;
        assert CommandQueue.Next(t.commands, CommandQueue.SetStatus(id, status), after, None);
      }
    case RequestCancel(cloid, command, now) =>
      var row := CancelCommand(cloid, command, now);
      assert CommandQueue.Permitted(CommandQueue.InsertIdempotent(row));
      assert after != t.commands ==> CommandQueue.Next(t.commands, CommandQueue.InsertIdempotent(row), after, None);
    case Reconcile(_) =>
    case TakeFill(_) =>
    case TakeUpdate(_) =>
  }
}
