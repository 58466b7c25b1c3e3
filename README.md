# IoT threat feed: verified model of the bookkeeping

This project models the core bookkeeping of a simulated IoT intrusion-detection feed. A producer fabricates telemetry and scores it with a classifier. It reports each event with its three most influential features, and appends a labelled sample to a rolling training buffer. A broadcaster fans each event out to the registered websocket clients over a lossy channel and drops clients whose send fails. A retrain loop periodically takes one training step on a batch from the buffer. It scores the live model and the persisted snapshot on the newest samples, and overwrites the snapshot only when the live model scores strictly better. A React dashboard keeps the newest 20 events, confusion-matrix counters and the derived totals.

The classifier is abstract. `predict` maps a model and a feature vector to a label. `train` is one opaque training step from a model and a batch to a new model. The random draws are inputs: the batch positions, and each client's loss or send outcome. The explainer's attribution vector is also an input.

Files, one module each:

- `buffer.dfy` (`Buffer`): the rolling training buffer `recent_data`. It is a class over a sequence with a ghost history of every append.
- `retrain.dfy` (`Retrain`): `evaluate_model` as a counting loop, plus the batch draw, the evaluation slice and the promotion gate. One retrain cycle is a pure function `Cycle`. The class `OnlineLearner` holds the live model and the snapshot, and its method `RetrainCycle` is proved equal to `Cycle`.
- `broadcast.dfy` (`Broadcast`): the client registry `connected_clients` as a class, and the fan-out loop over a copy of it.
- `seqs.dfy` (`Seqs`): the predicates "no repeated element" and "every position below a bound", shared by the other modules.
- `attribution.dfy` (`Attribution`): selection of the top three features by absolute attribution.
- `dashboard.dfy` (`Dashboard`): the dashboard's state updaters and derived totals.

Two points of the code shape the contracts:

- `list.remove` raises on an absent element (unified_backend_sim.py:83, 98), so `Registry.Remove` requires the client to be present.
- `np.argsort(np.abs(...))[::-1]` fixes no order among equal absolute values (unified_backend_sim.py:129), so the attribution contracts leave that order open.

## Model

| member | source | states |
|---|---|---|
| Buffer.Newest | unified_backend_sim.py:172 | the window of the newest min(n, len) elements (`recent_data[-100:]`) has that length and is a suffix of the input, in order; the window promise of the buffer is `AfterAppendsIsNewest`, and of the evaluation slice `Cycle` |
| Buffer.Evict | unified_backend_sim.py:146-147 | the eviction step drops exactly the head when the length exceeds 500, and otherwise changes nothing; what this achieves is proved in `AfterAppendsIsNewest` and `EvictOnlyOldest` |
| Buffer.NewestAppend | unified_backend_sim.py:145-147 | an append and evict on the newest 500 samples of a history gives the newest 500 samples of the extended history |
| Buffer.AfterAppendsIsNewest | unified_backend_sim.py:145-147 | after any sequence of appends to an empty buffer, it holds at most 500 samples, and they are the last min(500, n) appended, in append order |
| Buffer.EvictOnlyOldest | unified_backend_sim.py:145-147 | an append to a full buffer removes only the oldest sample; every other sample survives, shifted by one, and the new one is last |
| Buffer.TrainingBuffer.constructor | unified_backend_sim.py:58 | the buffer starts empty, with an empty history |
| Buffer.TrainingBuffer.Append | unified_backend_sim.py:145-147 | the sample goes to the tail, the head is evicted above 500, and the invariant holds: contents are the newest min(500, n) samples of the history |
| Retrain.CountCorrect | unified_backend_sim.py:35-45 | the count of correctly labelled samples is at most the number of samples |
| Retrain.CountCorrectAppend | unified_backend_sim.py:43-45 | one more sample raises the count by one exactly when the model's label for it equals its actual label (`if predicted == y: correct += 1`) |
| Retrain.CountCorrectExtremes | unified_backend_sim.py:38-45 | the count equals the length iff every sample is labelled correctly, and is 0 iff none is |
| Retrain.Accuracy | unified_backend_sim.py:46 | accuracy is 0 for an empty slice, lies in [0, 1] when correct is at most total, and is 1 when all are correct |
| Retrain.AccuracyGate | unified_backend_sim.py:172-175 | on one slice, new accuracy > previous accuracy iff the new correct-count > the previous correct-count |
| Retrain.EvaluateModel | unified_backend_sim.py:33-46 | the loop returns correct/total over the slice (0 when empty), which lies in [0, 1] |
| Retrain.Batch | unified_backend_sim.py:158 | the batch has one sample per drawn position |
| Retrain.BatchSubMultiset | unified_backend_sim.py:158 | a batch drawn from distinct buffer positions is a sub-multiset of the buffer (drawn without replacement) |
| Retrain.Cycle | unified_backend_sim.py:153-181 | under 50 samples nothing is trained, scored or saved. Otherwise the live model takes one step on a 50-sample draw without replacement. The reported new and previous accuracies are the trained live model's and the snapshot's accuracy on the same non-empty suffix of length min(100, len), both in [0, 1]. The snapshot is overwritten with the live model iff it scores strictly better (iff strictly more correct), and is otherwise untouched. The live model keeps the step either way. |
| Retrain.OnlineLearner.constructor | unified_backend_sim.py:48-53 | the live model and the snapshot both start as the loaded model |
| Retrain.OnlineLearner.RetrainCycle | unified_backend_sim.py:156-181 | the new live model, snapshot and report are those of `Cycle`; the buffer is unchanged |
| Broadcast.Select | unified_backend_sim.py:87-99 | the selected clients are at most as many as the registry holds |
| Broadcast.SelectMembers | unified_backend_sim.py:87-99 | a client is selected iff some registry position holds it with an outcome in the kept set |
| Broadcast.SelectLength | unified_backend_sim.py:87-99 | one client is selected per kept outcome |
| Broadcast.Positions | unified_backend_sim.py:87-99 | the kept positions are valid, ascending, and include every position whose outcome is kept |
| Broadcast.SelectKeepsOrder | unified_backend_sim.py:87-99 | the j-th selected client is the client at the j-th kept position, so survivors keep their relative order |
| Broadcast.CountPartition | unified_backend_sim.py:88-98 | every outcome is either kept (lost or delivered) or a failed send |
| Broadcast.FanOutEffect | unified_backend_sim.py:88-98 | with a duplicate-free registry, a client stays registered iff its send did not fail, and receives the event iff it was delivered. Exactly one entry is removed per failed send. |
| Broadcast.RemoveFirst | unified_backend_sim.py:98 | `list.remove` of a present element shortens the list by one |
| Broadcast.RemoveFirstAt | unified_backend_sim.py:98 | removing an element that first occurs after a prefix deletes just that occurrence |
| Broadcast.RemoveFirstDistinct | unified_backend_sim.py:83 | removing a present client from a duplicate-free registry keeps it duplicate-free and drops exactly that client |
| Broadcast.ThreeClientsOneFailure | unified_backend_sim.py:87-99 | three clients, no loss, the middle send fails: two stay registered and two received the event |
| Broadcast.Registry.constructor | unified_backend_sim.py:13 | the registry starts empty |
| Broadcast.Registry.Register | unified_backend_sim.py:78 | a newly connected client is appended to the registry |
| Broadcast.Registry.Remove | unified_backend_sim.py:83 | `list.remove` deletes the client's first (and only) entry, the registry stays duplicate-free, and the client is no longer registered; `RemoveFirstDistinct` shows every other client stays |
| Broadcast.Registry.SendToClient | unified_backend_sim.py:88-98 | handling one client of the copy keeps the registry duplicate-free, removes that client iff its send failed, and adds it to the ghost record of receivers iff the event was delivered |
| Broadcast.Registry.BroadcastThreat | unified_backend_sim.py:86-99 | iterating a copy of the registry, the registry becomes the lost-or-delivered clients in their original order, and the ghost record of receivers is exactly the delivered ones |
| Attribution.Insert | unified_backend_sim.py:129 | inserting an index adds exactly that index and keeps all indices valid |
| Attribution.InsertDescending | unified_backend_sim.py:129 | insertion keeps the list ordered by non-increasing absolute value |
| Attribution.InsertDistinct | unified_backend_sim.py:129 | inserting a new index into a repetition-free list keeps it repetition-free |
| Attribution.SortByAbs | unified_backend_sim.py:129 | the descending argsort holds the same indices as its input, all valid |
| Attribution.SortByAbsOrdered | unified_backend_sim.py:129 | the argsort is ordered by non-increasing absolute value, and is repetition-free when its input is |
| Attribution.ArgsortPrefix | unified_backend_sim.py:129 | every prefix of the descending argsort holds distinct valid indices in non-increasing order of absolute value, and no index outside the prefix has a larger absolute value than one inside it |
| Attribution.TopIndices | unified_backend_sim.py:129 | min(3, n) distinct valid indices in non-increasing order of absolute value; no other index has a larger absolute value than a selected one |
| Attribution.TopFeatures | unified_backend_sim.py:129-134 | the reported features are min(3, n) distinct valid indices, each paired with its signed value, largest absolute value first, and no unreported feature outranks a reported one |
| Dashboard.PushThreat | app/Dashboard.jsx:22 | the new threat is first, the length becomes min(20, previous + 1), and the rest are the previous list's first entries, in order |
| Dashboard.ThreatsAfterNewest | app/Dashboard.jsx:22 | after any messages, the list holds the newest min(20, n) of them, newest first |
| Dashboard.ThreatsAfterIsReversedWindow | app/Dashboard.jsx:22 | the list is the newest-20 window of the messages, reversed |
| Dashboard.ThreatLog | app/Dashboard.jsx:106 | the log is the first min(3, len) entries of the threat list; `ThreatLogNewest` proves these are the newest messages |
| Dashboard.ThreatLogNewest | app/Dashboard.jsx:106 | the log shows the newest min(3, n) messages, newest first |
| Dashboard.UpdateMetrics | app/Dashboard.jsx:24-31 | counters never decrease. The pair (prediction, actual) = (1, 1) adds one to truePositives, (1, 0) to falsePositives, (0, 0) to trueNegatives and (0, 1) to falseNegatives, and nothing else changes; a message with any other pair changes nothing. So a binary message moves exactly one counter by one, and the successful total grows iff the prediction was right. |
| Dashboard.MetricsAfterCountsPairs | app/Dashboard.jsx:24-31 | after any messages, TP, FP, TN and FN are the numbers of messages with (prediction, actual) = (1, 1), (1, 0), (0, 0) and (0, 1) respectively |
| Dashboard.Successful | app/Dashboard.jsx:48-51 | the "Successful Identification" total never exceeds the sum of the four counters, and equals it iff there are no false positives and no false negatives |
| Dashboard.Unsuccessful | app/Dashboard.jsx:47-56 | Successful + Unsuccessful equals TP + FP + TN + FN |
| Dashboard.TotalCountsBinaryMessages | app/Dashboard.jsx:40-56 | after any messages, Successful + Unsuccessful equals the number of messages with both labels in {0, 1} |
| Dashboard.SuccessfulCountsRightPredictions | app/Dashboard.jsx:47-51 | after any messages, Successful equals the number of binary messages whose prediction equals the actual label |

## Left out

- The asyncio plumbing is not modelled: the event queue, the sleep cadences, task start-up, the websocket accept and keep-alive loop, and the uvicorn entry point. Its only logic is scheduling.
- The race is not modelled between the disconnect handler's removal (line 83) and the fan-out's removal (line 98) across the send delay. It needs interleaving. The fan-out is modelled as running without interruption, so every client of the copy is still registered when its send fails.
- Broadcast.Registry.Register: requires the client to be absent. Each connection is a fresh websocket object, and duplicate registration is not modelled.
- Broadcast.Registry.Remove: requires the client to be present, as `list.remove` raises otherwise. The raising path is not modelled.
- The classifier is not modelled: the torch model, optimizer, loss, forward passes and model.py. It becomes the `predict` and `train` parameters.
- The Adam optimizer's state (unified_backend_sim.py:55, 166-170) carries over from one cycle to the next and is not saved with the snapshot. Any such state is folded into the abstract model type `M` of the live model; `predict` ignores it, so the promotion gate is unaffected.
- The explainer is not modelled. The SHAP attribution vector is an input of `TopFeatures`.
- Randomness is not modelled: device, features, actual label, action, loss, latency and the batch draw. Each draw is an input or is left out.
- The assembly of the event payload is not modelled (device, action, timestamp; lines 114-126, 136-143). Neither is the feature-name formatting `Feature_i`; the model keeps the index.
- File persistence is not modelled: `torch.save`/`torch.load`, the save directory and the startup choice between the retrained and the fallback file. The snapshot is a field that starts equal to the startup model. Line 173 loads the retrained file even if it was never written, which raises. `online_learning_loop` has no `try`, so that exception ends the retrain task for good and leaves its `while True` loop (line 154). On a start without the retrained file (lines 50-51), the live model keeps one training step and no snapshot is ever written. The `OnlineLearner` constructor, with `snapshot == initial`, models only the start where the retrained file exists (lines 48-49).
- Accuracy uses exact rationals (`real`) rather than IEEE floats.
- Dashboard rendering, charts, animation, the tab toggle, the iframe dashboard and the proxy configuration are not modelled. They hold no state logic.
