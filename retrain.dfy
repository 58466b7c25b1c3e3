/** The online-learning protocol: every retrain cycle samples a batch from the
    rolling buffer, applies one training step to the live model, scores the
    live model and the persisted snapshot on the newest samples, and
    overwrites the snapshot only when the live model scores strictly better.

    The classifier is abstract: `predict` maps a model and a feature vector to
    a label, and `train` is one opaque optimisation step of a model against a
    batch. */
module Retrain {
  import Buffer
  import opened Seqs

  /** A cycle with fewer buffered samples than this does nothing. */
  const MinSamples: nat := 50
  /** Size of the training batch drawn from the buffer. */
  const BatchSize: nat := 50
  /** The evaluation slice is the newest `EvalWindow` samples. */
  const EvalWindow: nat := 100

  /** One buffered training sample: a feature vector and its label. */
  datatype Sample<F> = Sample(features: F, actual: int)

  /** Whether the model labels a sample correctly. */
  predicate Hit<M, F>(predict: (M, F) -> int, m: M, s: Sample<F>)
  {
    predict(m, s.features) == s.actual
  }

  /** The number of samples of `data` that the model labels correctly. */
  function CountCorrect<M, F>(predict: (M, F) -> int, m: M, data: seq<Sample<F>>): (c: nat)
    ensures c <= |data|
  {
    if data == [] then 0
    else CountCorrect(predict, m, data[..|data| - 1]) + (if Hit(predict, m, data[|data| - 1]) then 1 else 0)
  }

  /** One more sample raises the count by one exactly when the model's
      label for it equals its actual label. */
  lemma CountCorrectAppend<M, F>(predict: (M, F) -> int, m: M, data: seq<Sample<F>>, s: Sample<F>)
    ensures CountCorrect(predict, m, data + [s])
            == CountCorrect(predict, m, data) + (if predict(m, s.features) == s.actual then 1 else 0)
  {
    assert (data + [s])[..|data|] == data;
  }

  /** Every sample is labelled correctly exactly when the count is the length,
      and none is exactly when the count is zero. */
  lemma {:induction false} CountCorrectExtremes<M, F>(predict: (M, F) -> int, m: M, data: seq<Sample<F>>)
    ensures CountCorrect(predict, m, data) == |data| <==> forall i :: 0 <= i < |data| ==> Hit(predict, m, data[i])
    ensures CountCorrect(predict, m, data) == 0 <==> forall i :: 0 <= i < |data| ==> !Hit(predict, m, data[i])
  {
    if data != [] {
      var init := data[..|data| - 1];
      CountCorrectExtremes(predict, m, init);
      assert forall i :: 0 <= i < |init| ==> init[i] == data[i];
    }
  }

  /** The fraction `correct / total`, or 0 when `total` is 0. */
  function Accuracy(correct: nat, total: nat): (a: real)
    ensures total == 0 ==> a == 0.0
    ensures correct <= total ==> 0.0 <= a <= 1.0
    ensures 0 < total && correct == total ==> a == 1.0
  {
    if total > 0 then correct as real / total as real else 0.0
  }

  /** Two accuracies over the same slice compare exactly as their counts of
      correct predictions do. */
  lemma AccuracyGate(c1: nat, c2: nat, total: nat)
    requires c1 <= total && c2 <= total
    ensures Accuracy(c1, total) > Accuracy(c2, total) <==> c1 > c2
  {
    if total > 0 {
      var t := total as real;
      assert Accuracy(c1, total) - Accuracy(c2, total) == (c1 as real - c2 as real) / t;
    }
  }

  /** The accuracy of a model on a slice: a loop that counts the samples it
      labels correctly. */
  method EvaluateModel<M, F>(predict: (M, F) -> int, m: M, testData: seq<Sample<F>>) returns (acc: real)
    ensures acc == Accuracy(CountCorrect(predict, m, testData), |testData|)
  {
    var correct: nat := 0;
    var total := |testData|;
    var i := 0;
    while i < total
      invariant 0 <= i <= total
      invariant correct == CountCorrect(predict, m, testData[..i])
    {
      assert testData[..i + 1][..i] == testData[..i];
      if predict(m, testData[i].features) == testData[i].actual {
        correct := correct + 1;
      }
      i := i + 1;
    }
    assert testData[..total] == testData;
    acc := if total > 0 then correct as real / total as real else 0.0;
  }

  /** The positions a random draw of a training batch picks: `BatchSize`
      distinct positions of a buffer of length `n`. */
  ghost predicate IsDraw(draw: seq<nat>, n: nat)
  {
    |draw| == BatchSize && InRange(draw, n) && Distinct(draw)
  }

  /** The samples at the drawn positions, in draw order. */
  function Batch<T>(buf: seq<T>, draw: seq<nat>): (b: seq<T>)
    requires InRange(draw, |buf|)
    ensures |b| == |draw|
  {
    seq(|draw|, i requires 0 <= i < |draw| => buf[draw[i]])
  }

  /** The batch of two concatenated draws is the concatenation of their
      batches. */
  lemma BatchConcat<T>(buf: seq<T>, d1: seq<nat>, d2: seq<nat>)
    requires InRange(d1, |buf|) && InRange(d2, |buf|)
    ensures InRange(d1 + d2, |buf|)
    ensures Batch(buf, d1 + d2) == Batch(buf, d1) + Batch(buf, d2)
  {
  }

  /** The batch of the positions other than the `k`-th, with the sample at
      position `k` added back, is the whole batch (as a multiset). */
  lemma BatchRemoveAt<T>(buf: seq<T>, draw: seq<nat>, k: nat)
    requires InRange(draw, |buf|) && k < |draw|
    ensures InRange(draw[..k] + draw[k + 1..], |buf|)
    ensures multiset(Batch(buf, draw))
            == multiset(Batch(buf, draw[..k] + draw[k + 1..])) + multiset{buf[draw[k]]}
  {
    var pre, suf := draw[..k], draw[k + 1..];
    assert draw == pre + [draw[k]] + suf;
    assert InRange(pre, |buf|) && InRange(suf, |buf|) && InRange([draw[k]], |buf|);
    BatchConcat(buf, pre, [draw[k]]);
    BatchConcat(buf, pre + [draw[k]], suf);
    BatchConcat(buf, pre, suf);
    assert Batch(buf, [draw[k]]) == [buf[draw[k]]];
  }

  /** A batch only reads the buffer at the drawn positions. */
  lemma BatchOfPrefix<T>(buf: seq<T>, n: nat, draw: seq<nat>)
    requires n <= |buf| && InRange(draw, n)
    ensures Batch(buf, draw) == Batch(buf[..n], draw)
  {
  }

  /** Drawing samples from distinct positions is drawing without replacement:
      the batch is a sub-multiset of the buffer. */
  lemma {:induction false} BatchSubMultiset<T>(buf: seq<T>, draw: seq<nat>)
    requires InRange(draw, |buf|) && Distinct(draw)
    ensures multiset(Batch(buf, draw)) <= multiset(buf)
    decreases |buf|
  {
    if buf != [] {
      var last := |buf| - 1;
      var init := buf[..last];
      assert buf == init + [buf[last]];
      if k :| 0 <= k < |draw| && draw[k] == last {
        var rest := draw[..k] + draw[k + 1..];
        BatchRemoveAt(buf, draw, k);
        DistinctWithout(draw, k);
        assert InRange(rest, last);
        BatchOfPrefix(buf, last, rest);
        BatchSubMultiset(init, rest);
      } else {
        assert InRange(draw, last);
        BatchOfPrefix(buf, last, draw);
        BatchSubMultiset(init, draw);
      }
    }
  }

  /** The two models a cycle touches: the live one and the persisted snapshot. */
  datatype Models<M> = Models(live: M, snapshot: M)

  /** What a retrain cycle did. */
  datatype CycleReport<F> =
    | Skipped
    | Retrained(batch: seq<Sample<F>>, slice: seq<Sample<F>>,
                newAccuracy: real, previousAccuracy: real, promoted: bool)

  /** One retrain cycle on a buffer whose contents are `buf`, with `draw`
      the positions the random batch draw picks. */
  function Cycle<M, F>(predict: (M, F) -> int, train: (M, seq<Sample<F>>) -> M,
                       models: Models<M>, buf: seq<Sample<F>>, draw: seq<nat>): (r: (Models<M>, CycleReport<F>))
    requires |buf| >= MinSamples ==> IsDraw(draw, |buf|)
    // not enough data: nothing is trained, evaluated or saved
    ensures r.1.Skipped? <==> |buf| < MinSamples
    ensures r.1.Skipped? ==> r.0 == models
    // a cycle that runs trains the live model on a 50-sample draw without replacement
    ensures r.1.Retrained? ==> |r.1.batch| == BatchSize && multiset(r.1.batch) <= multiset(buf)
    ensures r.1.Retrained? ==> r.0.live == train(models.live, r.1.batch)
    // both models are scored on the same non-empty suffix of the buffer
    ensures r.1.Retrained? ==> |r.1.slice| == (if |buf| < EvalWindow then |buf| else EvalWindow)
                               && buf == buf[..|buf| - |r.1.slice|] + r.1.slice
                               && r.1.slice != []
    // the reported accuracies are those of the trained live model and of the
    // snapshot on that slice
    ensures r.1.Retrained? ==>
              r.1.newAccuracy == Accuracy(CountCorrect(predict, r.0.live, r.1.slice), |r.1.slice|)
              && r.1.previousAccuracy == Accuracy(CountCorrect(predict, models.snapshot, r.1.slice), |r.1.slice|)
    ensures r.1.Retrained? ==>
              0.0 <= r.1.newAccuracy <= 1.0 && 0.0 <= r.1.previousAccuracy <= 1.0
    // the snapshot is overwritten with the live model iff it scores strictly better,
    // which is iff it labels strictly more samples of the slice correctly
    ensures r.1.Retrained? ==> (r.1.promoted <==> r.1.newAccuracy > r.1.previousAccuracy)
    ensures r.1.Retrained? ==>
              (r.1.promoted <==> CountCorrect(predict, r.0.live, r.1.slice)
                                   > CountCorrect(predict, models.snapshot, r.1.slice))
    ensures r.1.Retrained? && r.1.promoted ==> r.0.snapshot == r.0.live
    ensures r.1.Retrained? && !r.1.promoted ==> r.0.snapshot == models.snapshot
  {
    if |buf| < MinSamples then (models, Skipped)
    else
      var batch := Batch(buf, draw);
      BatchSubMultiset(buf, draw);
      var live := train(models.live, batch);
      var slice := Buffer.Newest(buf, EvalWindow);
      assert buf == buf[..|buf| - |slice|] + slice;
      var newCorrect := CountCorrect(predict, live, slice);
      var oldCorrect := CountCorrect(predict, models.snapshot, slice);
      var newAcc := Accuracy(newCorrect, |slice|);
      var oldAcc := Accuracy(oldCorrect, |slice|);
      AccuracyGate(newCorrect, oldCorrect, |slice|);
      var promoted := newAcc > oldAcc;
      (Models(live, if promoted then live else models.snapshot),
       Retrained(batch, slice, newAcc, oldAcc, promoted))
  }

  /** The live model and the persisted snapshot, with the classifier's
      scoring and training step. */
  class OnlineLearner<M, F> {
    const predict: (M, F) -> int
    const train: (M, seq<Sample<F>>) -> M
    var live: M
    var snapshot: M

    /** At startup the live model is loaded from the persisted snapshot. */
    constructor (predict: (M, F) -> int, train: (M, seq<Sample<F>>) -> M, initial: M)
      ensures this.predict == predict && this.train == train
      ensures live == initial && snapshot == initial
    {
      this.predict := predict;
      this.train := train;
      live := initial;
      snapshot := initial;
    }

    /** One pass of the online-learning loop body. */
    method RetrainCycle(buf: Buffer.TrainingBuffer<Sample<F>>, draw: seq<nat>) returns (report: CycleReport<F>)
      requires |buf.samples| >= MinSamples ==> IsDraw(draw, |buf.samples|)
      modifies this
      ensures unchanged(buf)
      ensures (Models(live, snapshot), report)
              == Cycle(predict, train, old(Models(live, snapshot)), buf.samples, draw)
    {
      var data := buf.samples;
      if |data| >= MinSamples {
        var batch := Batch(data, draw);
        live := train(live, batch);
        var slice := Buffer.Newest(data, EvalWindow);
        var newAccuracy := EvaluateModel(predict, live, slice);
        var previousAccuracy := EvaluateModel(predict, snapshot, slice);
        var promoted := newAccuracy > previousAccuracy;
        if promoted {
          snapshot := live;
        }
        report := Retrained(batch, slice, newAccuracy, previousAccuracy, promoted);
      } else {
        report := Skipped;
      }
    }
  }
}
