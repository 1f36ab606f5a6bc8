/** The tracker data notifier: a registry of observers without duplicates, and the three
    broadcasts that hand a heart-rate sample, a PPG sample or an error to a snapshot of
    it, one observer at a time. An observer that throws an `Exception` is skipped over;
    any other throwable ends the broadcast and leaves it. */
module Notifier {
  import opened Ints
  import opened SensorData

  /** An observer, by identity. */
  type ObserverId = nat

  /** The three callbacks of an observer, with their argument. */
  datatype Call =
    | OnHeartRateTrackerDataChanged(hrData: HeartRateData)
    | OnPpgDataChanged(ppgData: PpgData)
    | OnError(errorResourceId: Int32)

  /** What an observer may do to the registry from inside a callback. */
  datatype RegistryOp = AddOp(o: ObserverId) | RemoveOp(o: ObserverId)

  /** How a callback ends: it returns, it throws an `Exception`, which the notifier
      catches and logs, or it throws another throwable (an `Error` such as Kotlin's
      `NotImplementedError`), which `catch (e: Exception)` lets through. */
  datatype Ending = Returns | ThrowsException | ThrowsError

  /** How an observer answers one call: the registry operations it performs, and how it
      then ends. The notifier cannot see into observers, so this is an input. */
  datatype Reaction = Reaction(ops: seq<RegistryOp>, ending: Ending)

  /** One entry of the delivery log: who was called, with what, and how it ended. */
  datatype Delivery = Delivery(observer: ObserverId, call: Call, ending: Ending)

  predicate Unique(reg: seq<ObserverId>) {
    forall i, j :: 0 <= i < j < |reg| ==> reg[i] != reg[j]
  }

  function Count(reg: seq<ObserverId>, o: ObserverId): (n: nat)
    ensures n <= |reg|
    ensures n == 0 <==> o !in reg
  {
    if |reg| == 0 then 0 else (if reg[0] == o then 1 else 0) + Count(reg[1..], o)
  }

  /** `addObserver`: appended when not already registered. */
  function Add(reg: seq<ObserverId>, o: ObserverId): (r: seq<ObserverId>)
    ensures o in r
    ensures forall x :: x != o ==> (x in r <==> x in reg)
  {
    if o in reg then reg else reg + [o]
  }

  /** The position of the first occurrence of `o`. */
  function IndexOf(reg: seq<ObserverId>, o: ObserverId): (i: nat)
    requires o in reg
    ensures i < |reg| && reg[i] == o && o !in reg[..i]
  {
    if reg[0] == o then 0
    else
      var k := IndexOf(reg[1..], o);
      assert reg[..k + 1] == [reg[0]] + reg[1..][..k];
      k + 1
  }

  /** `removeObserver`: `MutableList.remove`, which drops the first occurrence only. */
  function Remove(reg: seq<ObserverId>, o: ObserverId): (r: seq<ObserverId>)
    ensures o !in reg ==> r == reg
    ensures o in reg ==> r == reg[..IndexOf(reg, o)] + reg[IndexOf(reg, o) + 1..]
  {
    if |reg| == 0 then reg
    else if reg[0] == o then reg[1..]
    else
      var r := [reg[0]] + Remove(reg[1..], o);
      assert o in reg ==> reg[..IndexOf(reg, o)] == [reg[0]] + reg[1..][..IndexOf(reg[1..], o)];
      r
  }

  /** After `addObserver(o)` on a registry without duplicates, `o` occurs exactly once,
      the registry still has no duplicates, and nobody else came or went. */
  lemma {:induction false} AddOnce(reg: seq<ObserverId>, o: ObserverId)
    requires Unique(reg)
    ensures Unique(Add(reg, o))
    ensures Count(Add(reg, o), o) == 1
    ensures o in reg ==> Add(reg, o) == reg
  {
    if o in reg {
      CountUnique(reg, o);
    } else {
      CountSnoc(reg, o, o);
    }
  }

  lemma {:induction false} CountSnoc(reg: seq<ObserverId>, x: ObserverId, o: ObserverId)
    ensures Count(reg + [x], o) == Count(reg, o) + (if x == o then 1 else 0)
    decreases |reg|
  {
    if |reg| == 0 {
      assert [x][1..] == [];
    } else {
      assert (reg + [x])[1..] == reg[1..] + [x];
      CountSnoc(reg[1..], x, o);
    }
  }

  /** In a registry without duplicates every member occurs once. */
  lemma {:induction false} CountUnique(reg: seq<ObserverId>, o: ObserverId)
    requires Unique(reg) && o in reg
    ensures Count(reg, o) == 1
    decreases |reg|
  {
    if reg[0] == o {
      assert o !in reg[1..] by {
        forall i | 0 <= i < |reg[1..]| ensures reg[1..][i] != o {
          assert reg[1..][i] == reg[i + 1];
        }
      }
    } else {
      assert Unique(reg[1..]) by {
        forall i, j | 0 <= i < j < |reg[1..]| ensures reg[1..][i] != reg[1..][j] {
          assert reg[1..][i] == reg[i + 1] && reg[1..][j] == reg[j + 1];
        }
      }
      CountUnique(reg[1..], o);
    }
  }

  /** Adding twice is adding once. */
  lemma AddIdempotent(reg: seq<ObserverId>, o: ObserverId)
    ensures Add(Add(reg, o), o) == Add(reg, o)
  {
  }

  /** Removing keeps the other observers in their order and, without duplicates, takes
      `o` out completely. */
  lemma RemoveSpec(reg: seq<ObserverId>, o: ObserverId)
    requires Unique(reg)
    ensures Unique(Remove(reg, o))
    ensures o !in Remove(reg, o)
    ensures forall x :: x != o ==> (x in Remove(reg, o) <==> x in reg)
    ensures |Remove(reg, o)| == |reg| - (if o in reg then 1 else 0)
  {
    if o in reg {
      var i := IndexOf(reg, o);
      DeleteKeepsUnique(reg, i);
      DeleteDropsOnly(reg, i);
    }
  }

  /** Dropping one position of a registry without duplicates leaves one without
      duplicates that no longer holds the dropped observer. */
  lemma DeleteKeepsUnique(reg: seq<ObserverId>, i: nat)
    requires Unique(reg) && i < |reg|
    ensures Unique(reg[..i] + reg[i + 1..])
    ensures reg[i] !in reg[..i] + reg[i + 1..]
  {
    var r := reg[..i] + reg[i + 1..];
    forall a, b | 0 <= a < b < |r| ensures r[a] != r[b] {
      var a', b' := if a < i then a else a + 1, if b < i then b else b + 1;
      assert r[a] == reg[a'] && r[b] == reg[b'];
    }
    forall k | 0 <= k < |r| ensures r[k] != reg[i] {
      assert r[k] == reg[if k < i then k else k + 1];
    }
  }

  /** Dropping one position keeps every other observer. */
  lemma DeleteDropsOnly(reg: seq<ObserverId>, i: nat)
    requires i < |reg|
    ensures forall x :: x != reg[i] ==> (x in reg[..i] + reg[i + 1..] <==> x in reg)
  {
    var r := reg[..i] + reg[i + 1..];
    forall x | x != reg[i] && x in reg ensures x in r {
      var k :| 0 <= k < |reg| && reg[k] == x;
      assert r[if k < i then k else k - 1] == x;
    }
    forall x | x in r ensures x in reg {
      var k :| 0 <= k < |r| && r[k] == x;
      assert reg[if k < i then k else k + 1] == x;
    }
  }

  /** Registering a new observer and removing it again restores the registry. */
  lemma AddThenRemove(reg: seq<ObserverId>, o: ObserverId)
    requires o !in reg
    ensures Remove(Add(reg, o), o) == reg
  {
    var r := reg + [o];
    assert IndexOf(r, o) == |reg| by {
      assert r[|reg|] == o && r[..|reg|] == reg;
    }
    assert r[..|reg|] == reg;
  }

  function Apply(reg: seq<ObserverId>, op: RegistryOp): seq<ObserverId> {
    match op
    case AddOp(o) => Add(reg, o)
    case RemoveOp(o) => Remove(reg, o)
  }

  function ApplyAll(reg: seq<ObserverId>, ops: seq<RegistryOp>): seq<ObserverId>
    decreases |ops|
  {
    if |ops| == 0 then reg else ApplyAll(Apply(reg, ops[0]), ops[1..])
  }

  lemma {:induction false} ApplyAllAppend(reg: seq<ObserverId>, a: seq<RegistryOp>, b: seq<RegistryOp>)
    ensures ApplyAll(reg, a + b) == ApplyAll(ApplyAll(reg, a), b)
    decreases |a|
  {
    if |a| == 0 {
      assert a + b == b;
    } else {
      assert (a + b)[1..] == a[1..] + b;
      ApplyAllAppend(Apply(reg, a[0]), a[1..], b);
    }
  }

  /** The calls made for a snapshot, in its order: every observer once. */
  function Deliveries(snapshot: seq<ObserverId>, call: Call, react: (ObserverId, Call) -> Reaction)
    : (log: seq<Delivery>)
    ensures |log| == |snapshot|
  {
    if |snapshot| == 0 then []
    else
      [Delivery(snapshot[0], call, react(snapshot[0], call).ending)] + Deliveries(snapshot[1..], call, react)
  }

  /** Every observer of the snapshot is called once, in order, and an observer that
      throws does not keep the later ones from being called. */
  lemma {:induction false} DeliveriesSpec(snapshot: seq<ObserverId>, call: Call,
                                           react: (ObserverId, Call) -> Reaction)
    ensures forall i :: 0 <= i < |snapshot| ==>
      Deliveries(snapshot, call, react)[i] == Delivery(snapshot[i], call, react(snapshot[i], call).ending)
    decreases |snapshot|
  {
    if |snapshot| > 0 {
      DeliveriesSpec(snapshot[1..], call, react);
    }
  }

  /** The registry operations the observers of a snapshot perform, in call order. */
  function Effects(snapshot: seq<ObserverId>, call: Call, react: (ObserverId, Call) -> Reaction)
    : seq<RegistryOp>
  {
    if |snapshot| == 0 then [] else react(snapshot[0], call).ops + Effects(snapshot[1..], call, react)
  }

  lemma {:induction false} EffectsSnoc(snapshot: seq<ObserverId>, o: ObserverId, call: Call,
                                        react: (ObserverId, Call) -> Reaction)
    ensures Effects(snapshot + [o], call, react) == Effects(snapshot, call, react) + react(o, call).ops
    decreases |snapshot|
  {
    if |snapshot| == 0 {
      assert [o][1..] == [];
      assert Effects([o], call, react) == react(o, call).ops + [];
    } else {
      assert (snapshot + [o])[1..] == snapshot[1..] + [o];
      EffectsSnoc(snapshot[1..], o, call, react);
    }
  }

  /** Does some observer of the snapshot end its callback with a throwable that is not
      an `Exception`? */
  predicate Escapes(snapshot: seq<ObserverId>, call: Call, react: (ObserverId, Call) -> Reaction) {
    exists i :: 0 <= i < |snapshot| && react(snapshot[i], call).ending.ThrowsError?
  }

  /** How many observers of the snapshot a broadcast calls: every one, up to and
      including the first whose callback throws something other than an `Exception`. */
  function Reached(snapshot: seq<ObserverId>, call: Call, react: (ObserverId, Call) -> Reaction): (n: nat)
    ensures n <= |snapshot|
    ensures |snapshot| > 0 ==> n > 0
    ensures forall i :: 0 <= i < n - 1 ==> !react(snapshot[i], call).ending.ThrowsError?
    ensures n < |snapshot| ==> react(snapshot[n - 1], call).ending.ThrowsError?
    decreases |snapshot|
  {
    if |snapshot| == 0 then 0
    else if react(snapshot[0], call).ending.ThrowsError? then 1
    else
      var rest := Reached(snapshot[1..], call, react);
      assert forall i :: 1 <= i < rest ==> snapshot[i] == snapshot[1..][i - 1];
      1 + rest
  }

  /** A broadcast reaches every observer exactly when none throws past the `catch`, and
      otherwise stops at the first that does. */
  lemma ReachedAll(snapshot: seq<ObserverId>, call: Call, react: (ObserverId, Call) -> Reaction)
    ensures !Escapes(snapshot, call, react) <==> Reached(snapshot, call, react) == |snapshot|
                                                 && (|snapshot| == 0 || !react(snapshot[|snapshot| - 1], call).ending.ThrowsError?)
    ensures Escapes(snapshot, call, react) ==>
      var n := Reached(snapshot, call, react);
      n > 0 && react(snapshot[n - 1], call).ending.ThrowsError?
  {
    var n := Reached(snapshot, call, react);
    if n < |snapshot| {
      assert react(snapshot[n - 1], call).ending.ThrowsError?;
    } else if |snapshot| > 0 && react(snapshot[n - 1], call).ending.ThrowsError? {
    } else if Escapes(snapshot, call, react) {
      var i :| 0 <= i < |snapshot| && react(snapshot[i], call).ending.ThrowsError?;
      assert false;
    }
  }

  /** The count from position `i` on: observer `i` is called, and the ones after it
      only when it did not throw past the `catch`. */
  lemma ReachedFrom(snapshot: seq<ObserverId>, i: nat, call: Call, react: (ObserverId, Call) -> Reaction)
    requires i < |snapshot|
    ensures Reached(snapshot[i..], call, react)
         == 1 + (if react(snapshot[i], call).ending.ThrowsError? then 0 else Reached(snapshot[i + 1..], call, react))
  {
    assert snapshot[i..][0] == snapshot[i];
    assert snapshot[i..][1..] == snapshot[i + 1..];
  }

  /** The shared body of the three broadcasts: `observers.toList().forEach { try { … }
      catch (e: Exception) { … } }`. The loop runs over the copy taken on entry, so
      observers that register or leave from inside a callback change the registry but
      not who is called. A throwable that is not an `Exception` leaves the loop and the
      broadcast (`escaped`); the observers after it are not called. */
  method Notify(reg: seq<ObserverId>, call: Call, react: (ObserverId, Call) -> Reaction)
    returns (after: seq<ObserverId>, log: seq<Delivery>, escaped: bool)
    ensures log == Deliveries(reg[..Reached(reg, call, react)], call, react)
    ensures after == ApplyAll(reg, Effects(reg[..Reached(reg, call, react)], call, react))
    ensures escaped <==> Escapes(reg, call, react)
  {
    var snapshot := reg;
    after, log, escaped := reg, [], false;
    var i := 0;
    while i < |snapshot| && !escaped
      invariant 0 <= i <= |snapshot|
      invariant log == Deliveries(snapshot[..i], call, react)
      invariant after == ApplyAll(reg, Effects(snapshot[..i], call, react))
      invariant forall j :: 0 <= j < i - 1 ==> !react(snapshot[j], call).ending.ThrowsError?
      invariant escaped <==> i > 0 && react(snapshot[i - 1], call).ending.ThrowsError?
      invariant escaped ==> Reached(snapshot, call, react) == i
      invariant !escaped ==> Reached(snapshot, call, react) == i + Reached(snapshot[i..], call, react)
    {
      var o := snapshot[i];
      var reaction := react(o, call);
      NotifyStep(reg, snapshot, i, call, react);
      ReachedFrom(snapshot, i, call, react);
      after := ApplyAll(after, reaction.ops);
      log := log + [Delivery(o, call, reaction.ending)];
      escaped := reaction.ending.ThrowsError?;
      i := i + 1;
    }
    if !escaped {
      assert snapshot[i..] == [];
    }
    assert escaped ==> 0 <= i - 1 < |reg| && react(reg[i - 1], call).ending.ThrowsError?;
  }

  /** One turn of the loop: the log and the registry grow by one observer's call. */
  lemma NotifyStep(reg: seq<ObserverId>, snapshot: seq<ObserverId>, i: nat, call: Call,
                   react: (ObserverId, Call) -> Reaction)
    requires i < |snapshot|
    ensures Deliveries(snapshot[..i + 1], call, react)
         == Deliveries(snapshot[..i], call, react) + [Delivery(snapshot[i], call, react(snapshot[i], call).ending)]
    ensures ApplyAll(reg, Effects(snapshot[..i + 1], call, react))
         == ApplyAll(ApplyAll(reg, Effects(snapshot[..i], call, react)), react(snapshot[i], call).ops)
  {
    var o := snapshot[i];
    assert snapshot[..i + 1] == snapshot[..i] + [o];
    DeliveriesSnoc(snapshot[..i], o, call, react);
    EffectsSnoc(snapshot[..i], o, call, react);
    ApplyAllAppend(reg, Effects(snapshot[..i], call, react), react(o, call).ops);
  }

  lemma {:induction false} DeliveriesSnoc(snapshot: seq<ObserverId>, o: ObserverId, call: Call,
                                           react: (ObserverId, Call) -> Reaction)
    ensures Deliveries(snapshot + [o], call, react)
         == Deliveries(snapshot, call, react) + [Delivery(o, call, react(o, call).ending)]
    decreases |snapshot|
  {
    if |snapshot| == 0 {
      assert [o][1..] == [];
    } else {
      assert (snapshot + [o])[1..] == snapshot[1..] + [o];
      DeliveriesSnoc(snapshot[1..], o, call, react);
    }
  }

  /** `notifyHeartRateTrackerObservers`: the registered observers are called in
      registration order on their heart-rate callback with the sample, each once; all of
      them unless one throws something other than an `Exception`, which ends the
      broadcast after that observer. */
  method NotifyHeartRate(reg: seq<ObserverId>, hr: HeartRateData, react: (ObserverId, Call) -> Reaction)
    returns (after: seq<ObserverId>, log: seq<Delivery>, escaped: bool)
    ensures |log| == Reached(reg, OnHeartRateTrackerDataChanged(hr), react) && |log| <= |reg|
    ensures forall i :: 0 <= i < |log| ==>
      log[i] == Delivery(reg[i], OnHeartRateTrackerDataChanged(hr), react(reg[i], OnHeartRateTrackerDataChanged(hr)).ending)
    ensures escaped <==> Escapes(reg, OnHeartRateTrackerDataChanged(hr), react)
    ensures !escaped ==> |log| == |reg|
    ensures escaped ==> |log| > 0 && log[|log| - 1].ending.ThrowsError?
    ensures after == ApplyAll(reg, Effects(reg[..|log|], OnHeartRateTrackerDataChanged(hr), react))
  {
    after, log, escaped := Notify(reg, OnHeartRateTrackerDataChanged(hr), react);
    Delivered(reg, OnHeartRateTrackerDataChanged(hr), react);
  }

  /** `notifyPpgTrackerObservers`: the same, on the PPG callback. */
  method NotifyPpg(reg: seq<ObserverId>, ppg: PpgData, react: (ObserverId, Call) -> Reaction)
    returns (after: seq<ObserverId>, log: seq<Delivery>, escaped: bool)
    ensures |log| == Reached(reg, OnPpgDataChanged(ppg), react) && |log| <= |reg|
    ensures forall i :: 0 <= i < |log| ==>
      log[i] == Delivery(reg[i], OnPpgDataChanged(ppg), react(reg[i], OnPpgDataChanged(ppg)).ending)
    ensures escaped <==> Escapes(reg, OnPpgDataChanged(ppg), react)
    ensures !escaped ==> |log| == |reg|
    ensures escaped ==> |log| > 0 && log[|log| - 1].ending.ThrowsError?
    ensures after == ApplyAll(reg, Effects(reg[..|log|], OnPpgDataChanged(ppg), react))
  {
    after, log, escaped := Notify(reg, OnPpgDataChanged(ppg), react);
    Delivered(reg, OnPpgDataChanged(ppg), react);
  }

  /** `notifyError`: the same, on the error callback with the resource id. */
  method NotifyError(reg: seq<ObserverId>, errorResourceId: Int32, react: (ObserverId, Call) -> Reaction)
    returns (after: seq<ObserverId>, log: seq<Delivery>, escaped: bool)
    ensures |log| == Reached(reg, OnError(errorResourceId), react) && |log| <= |reg|
    ensures forall i :: 0 <= i < |log| ==>
      log[i] == Delivery(reg[i], OnError(errorResourceId), react(reg[i], OnError(errorResourceId)).ending)
    ensures escaped <==> Escapes(reg, OnError(errorResourceId), react)
    ensures !escaped ==> |log| == |reg|
    ensures escaped ==> |log| > 0 && log[|log| - 1].ending.ThrowsError?
    ensures after == ApplyAll(reg, Effects(reg[..|log|], OnError(errorResourceId), react))
  {
    after, log, escaped := Notify(reg, OnError(errorResourceId), react);
    Delivered(reg, OnError(errorResourceId), react);
  }

  /** The delivery log of a broadcast, entry by entry: the observers reached, in
      snapshot order, each with how its callback ended; the last one is the one that
      threw past the `catch`, when one did. */
  lemma Delivered(reg: seq<ObserverId>, call: Call, react: (ObserverId, Call) -> Reaction)
    ensures var log := Deliveries(reg[..Reached(reg, call, react)], call, react);
      |log| == Reached(reg, call, react)
      && (forall i :: 0 <= i < |log| ==> log[i] == Delivery(reg[i], call, react(reg[i], call).ending))
      && (!Escapes(reg, call, react) ==> |log| == |reg|)
      && (Escapes(reg, call, react) ==> |log| > 0 && log[|log| - 1].ending.ThrowsError?)
  {
    var n := Reached(reg, call, react);
    DeliveriesSpec(reg[..n], call, react);
    ReachedAll(reg, call, react);
  }

  /** Observers that leave the registry alone: then no broadcast changes it. */
  predicate Passive(reg: seq<ObserverId>, call: Call, react: (ObserverId, Call) -> Reaction) {
    forall i :: 0 <= i < |reg| ==> react(reg[i], call).ops == []
  }

  /** However many observers the broadcast reaches, passive ones leave the registry as
      it was. */
  lemma {:induction false} PassiveKeepsRegistry(reg: seq<ObserverId>, call: Call,
                                                 react: (ObserverId, Call) -> Reaction)
    requires Passive(reg, call, react)
    ensures ApplyAll(reg, Effects(reg[..Reached(reg, call, react)], call, react)) == reg
  {
    var n := Reached(reg, call, react);
    assert Passive(reg[..n], call, react) by {
      forall i | 0 <= i < n ensures react(reg[..n][i], call).ops == [] {
        assert reg[..n][i] == reg[i];
      }
    }
    NoEffects(reg[..n], call, react);
  }

  lemma {:induction false} NoEffects(snapshot: seq<ObserverId>, call: Call, react: (ObserverId, Call) -> Reaction)
    requires Passive(snapshot, call, react)
    ensures Effects(snapshot, call, react) == []
    decreases |snapshot|
  {
    if |snapshot| > 0 {
      assert Passive(snapshot[1..], call, react) by {
        forall i | 0 <= i < |snapshot[1..]| ensures react(snapshot[1..][i], call).ops == [] {
          assert snapshot[1..][i] == snapshot[i + 1];
        }
      }
      NoEffects(snapshot[1..], call, react);
    }
  }

  /** An observer that removes itself from inside the callback and then throws an
      `Exception` is still called this time, and the ones after it too, because the loop
      runs over the copy and catches the exception. */
  lemma SelfRemovalDuringBroadcast(hr: HeartRateData)
    ensures var call := OnHeartRateTrackerDataChanged(hr);
      var react := (o: ObserverId, c: Call) =>
        if o == 1 then Reaction([RemoveOp(1)], ThrowsException) else Reaction([], Returns);
      Reached([1, 2], call, react) == 2
      && Deliveries([1, 2], call, react) == [Delivery(1, call, ThrowsException), Delivery(2, call, Returns)]
      && ApplyAll([1, 2], Effects([1, 2], call, react)) == [2]
  {
    var call := OnHeartRateTrackerDataChanged(hr);
    var react := (o: ObserverId, c: Call) =>
      if o == 1 then Reaction([RemoveOp(1)], ThrowsException) else Reaction([], Returns);
    assert [1, 2][1..] == [2];
    assert [2][1..] == [];
    assert Effects([1, 2], call, react) == [RemoveOp(1)] by {
      assert Effects([2], call, react) == [] + [];
    }
    assert Remove([1, 2], 1) == [2];
    assert ApplyAll([2], [RemoveOp(1)][1..]) == [2];
  }

  /** An observer whose callback throws an `Error` ends the broadcast: the observer
      after it is not called, and the throwable leaves the notifier. */
  lemma ErrorEndsBroadcast(hr: HeartRateData)
    ensures var call := OnHeartRateTrackerDataChanged(hr);
      var react := (o: ObserverId, c: Call) => if o == 1 then Reaction([], ThrowsError) else Reaction([], Returns);
      Escapes([1, 2], call, react)
      && Reached([1, 2], call, react) == 1
      && Deliveries([1, 2][..1], call, react) == [Delivery(1, call, ThrowsError)]
  {
    var call := OnHeartRateTrackerDataChanged(hr);
    var react := (o: ObserverId, c: Call) => if o == 1 then Reaction([], ThrowsError) else Reaction([], Returns);
    assert [1, 2][..1] == [1];
    assert [1][1..] == [];
    assert react([1, 2][0], call).ending.ThrowsError?;
  }
}
