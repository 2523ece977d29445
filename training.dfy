/** The bookkeeping of the training loop: per-epoch losses and accuracy
    are appended to the history, the model is saved as the best one
    whenever the validation loss drops strictly below the best so far
    (which starts at +infinity), and the final model is saved after the
    last epoch.  What one epoch of training and validation returns is an
    input: the optimiser, the loss and the network are not modelled. */
module Training {
  import opened Common

  /** What train_one_epoch and validate return for one epoch. */
  datatype EpochResult = EpochResult(trainLoss: real, valLoss: real, valAcc: real)

  /** The fields of a saved checkpoint the loop decides: its epoch and the
      validation loss and accuracy stored with it. */
  datatype Checkpoint = Checkpoint(epoch: nat, valLoss: real, valAcc: real)

  /** history = {'train_loss': [...], 'val_loss': [...], 'val_acc': [...]}. */
  datatype History = History(trainLoss: seq<real>, valLoss: seq<real>, valAcc: seq<real>)

  /** After the loop the final save reads val_loss and val_acc, which are
      unbound when there were no epochs (a NameError). */
  datatype TrainError = NoEpochs

  /** The outcome of main(): the history, best_val_loss (None standing for
      float('inf')), the content of best_model.pth if it was ever written,
      and the content of final_model.pth. */
  datatype Outcome = Outcome(history: History, bestValLoss: Option<real>, best: Option<Checkpoint>, final: Checkpoint)

  /** val_loss < best_val_loss, with None as +infinity. */
  predicate Below(v: real, best: Option<real>) {
    best.None? || v < best.value
  }

  /** The content of best_model.pth after the first n epochs. */
  function Best(epochs: seq<EpochResult>, n: nat): Option<Checkpoint>
    requires n <= |epochs|
    decreases n
  {
    if n == 0 then None
    else
      var prev := Best(epochs, n - 1);
      var e := epochs[n - 1];
      if prev.None? || e.valLoss < prev.value.valLoss then Some(Checkpoint(n - 1, e.valLoss, e.valAcc))
      else prev
  }

  /** After at least one epoch a best model has been saved, and its epoch
      is the first one whose validation loss is the least of all epochs so
      far: no epoch has a smaller loss, every earlier epoch a larger one
      (so a tie never replaces the saved model); its loss and accuracy
      are that epoch's. */
  lemma {:induction false} BestIsFirstMinimum(epochs: seq<EpochResult>, n: nat)
    requires n <= |epochs|
    ensures Best(epochs, n).None? <==> n == 0
    ensures Best(epochs, n).Some? ==>
      var b := Best(epochs, n).value;
      && b.epoch < n
      && b.valLoss == epochs[b.epoch].valLoss && b.valAcc == epochs[b.epoch].valAcc
      && (forall k :: 0 <= k < n ==> b.valLoss <= epochs[k].valLoss)
      && (forall k :: 0 <= k < b.epoch ==> b.valLoss < epochs[k].valLoss)
    decreases n
  {
    if n > 0 {
      BestIsFirstMinimum(epochs, n - 1);
    }
  }

  /** The saved best is determined by the losses alone: any epoch below n
      that is the first to reach the least loss is the one saved. */
  lemma FirstMinimumIsBest(epochs: seq<EpochResult>, n: nat, e: nat)
    requires e < n <= |epochs|
    requires forall k :: 0 <= k < n ==> epochs[e].valLoss <= epochs[k].valLoss
    requires forall k :: 0 <= k < e ==> epochs[e].valLoss < epochs[k].valLoss
    ensures Best(epochs, n) == Some(Checkpoint(e, epochs[e].valLoss, epochs[e].valAcc))
  {
    BestIsFirstMinimum(epochs, n);
  }

  /** One epoch of the loop: append to the history, then save the best
      model on a strict improvement. */
  method Epoch(epoch: nat, e: EpochResult, history: History, bestValLoss: Option<real>, best: Option<Checkpoint>)
    returns (history': History, bestValLoss': Option<real>, best': Option<Checkpoint>)
    ensures history' == History(history.trainLoss + [e.trainLoss], history.valLoss + [e.valLoss], history.valAcc + [e.valAcc])
    ensures Below(e.valLoss, bestValLoss) ==>
      bestValLoss' == Some(e.valLoss) && best' == Some(Checkpoint(epoch, e.valLoss, e.valAcc))
    ensures !Below(e.valLoss, bestValLoss) ==> bestValLoss' == bestValLoss && best' == best
  {
    history' := History(history.trainLoss + [e.trainLoss], history.valLoss + [e.valLoss], history.valAcc + [e.valAcc]);
    bestValLoss', best' := bestValLoss, best;
    if Below(e.valLoss, bestValLoss) {
      bestValLoss' := Some(e.valLoss);
      best' := Some(Checkpoint(epoch, e.valLoss, e.valAcc));
    }
  }

  /** The epoch loop of main() over num_epochs = |epochs| epochs: the
      history holds one entry per epoch, in order; best_model.pth holds
      the first epoch with the least validation loss and best_val_loss is
      that loss; final_model.pth records epoch num_epochs with the last
      epoch's validation loss and accuracy.  With no epochs the final save
      fails. */
  method Train(epochs: seq<EpochResult>) returns (r: Result<Outcome, TrainError>)
    ensures |epochs| == 0 <==> r == Failure(NoEpochs)
    ensures r.Success? ==>
      var o := r.value;
      && |o.history.trainLoss| == |epochs| && |o.history.valLoss| == |epochs| && |o.history.valAcc| == |epochs|
      && (forall k :: 0 <= k < |epochs| ==>
            && o.history.trainLoss[k] == epochs[k].trainLoss
            && o.history.valLoss[k] == epochs[k].valLoss
            && o.history.valAcc[k] == epochs[k].valAcc)
      && o.best == Best(epochs, |epochs|)
      && o.best.Some? && o.bestValLoss == Some(o.best.value.valLoss)
      && o.final == Checkpoint(|epochs|, epochs[|epochs| - 1].valLoss, epochs[|epochs| - 1].valAcc)
  {
    var history := History([], [], []);
    var bestValLoss: Option<real> := None;
    var best: Option<Checkpoint> := None;
    for epoch := 0 to |epochs|
      invariant |history.trainLoss| == epoch && |history.valLoss| == epoch && |history.valAcc| == epoch
      invariant forall k :: 0 <= k < epoch ==>
        && history.trainLoss[k] == epochs[k].trainLoss
        && history.valLoss[k] == epochs[k].valLoss
        && history.valAcc[k] == epochs[k].valAcc
      invariant best == Best(epochs, epoch)
      invariant bestValLoss == if best.None? then None else Some(best.value.valLoss)
    {
      history, bestValLoss, best := Epoch(epoch, epochs[epoch], history, bestValLoss, best);
    }
    if |epochs| == 0 {
      return Failure(NoEpochs);
    }
    BestIsFirstMinimum(epochs, |epochs|);
    var last := epochs[|epochs| - 1];
    r := Success(Outcome(history, bestValLoss, best, Checkpoint(|epochs|, last.valLoss, last.valAcc)));
  }
}
