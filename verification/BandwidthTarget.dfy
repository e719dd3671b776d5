/**
  The trigger scan of the bandwidth target in crates/evaluator-server/src/target.rs: a matcher over
  a stream that arrives in pieces and of which only the last ten bytes are kept.
 */
module BandwidthTarget {
  import opened Bytes

  /** `BW_DOWNLOAD` */
  const TRIGGER: seq<Byte> := [66, 87, 95, 68, 79, 87, 78, 76, 79, 65, 68]

  predicate TriggerAt(s: seq<Byte>, i: nat) {
    i + 11 <= |s| && s[i..i + 11] == TRIGGER
  }

  predicate Contains(s: seq<Byte>) {
    exists i | 0 <= i < |s| :: TriggerAt(s, i)
  }

  function Last10(s: seq<Byte>): seq<Byte> {
    if |s| > 10 then s[|s| - 10..] else s
  }

  lemma {:induction false} OccurrenceKept(seen: seq<Byte>, data: seq<Byte>, i: nat)
    requires !Contains(seen) && TriggerAt(seen + data, i)
    ensures Contains(Last10(seen) + data)
  {
    var all, w := seen + data, Last10(seen) + data;
    if i + 11 <= |seen| {
      assert seen[i..i + 11] == all[i..i + 11];
      assert TriggerAt(seen, i);
      assert false;
    } else {
      var cut := |all| - |w|;
      assert w == all[cut..];
      assert w[i - cut..i - cut + 11] == all[i..i + 11];
      assert TriggerAt(w, i - cut);
    }
  }

  lemma {:induction false} OccurrenceReal(seen: seq<Byte>, data: seq<Byte>, i: nat)
    requires TriggerAt(Last10(seen) + data, i)
    ensures Contains(seen + data)
  {
    var all, w := seen + data, Last10(seen) + data;
    var cut := |all| - |w|;
    assert w == all[cut..];
    assert w[i..i + 11] == all[cut + i..cut + i + 11];
    assert TriggerAt(all, cut + i);
  }

  /** Ten bytes of memory are enough: the window matches exactly when the whole stream does. */
  lemma {:induction false} WindowSuffices(seen: seq<Byte>, data: seq<Byte>)
    requires !Contains(seen)
    ensures Contains(Last10(seen) + data) <==> Contains(seen + data)
    ensures Last10(Last10(seen) + data) == Last10(seen + data)
  {
    if Contains(seen + data) {
      var i :| 0 <= i < |seen + data| && TriggerAt(seen + data, i);
      OccurrenceKept(seen, data, i);
    }
    if Contains(Last10(seen) + data) {
      var i :| 0 <= i < |Last10(seen) + data| && TriggerAt(Last10(seen) + data, i);
      OccurrenceReal(seen, data, i);
    }
  }

  /** One turn of the loop, given a window on a stream without the trigger. */
  method TakeArrival(window: seq<Byte>, data: seq<Byte>, ghost stream: seq<Byte>)
    returns (found: bool, window': seq<Byte>)
    requires window == Last10(stream) && !Contains(stream)
    ensures found <==> Contains(stream + data)
    ensures !found ==> window' == Last10(stream + data)
  {
    WindowSuffices(stream, data);
    window' := window + data;
    found := Contains(window');
    if !found && |window'| > 10 {
      window' := window'[|window'| - 10..];
    }
  }

  /**
    Reads arrivals until the trigger has been seen; an empty arrival, or running out of them, is the
    end of the stream or a read error. The loop is left at the first arrival after which everything
    received contains the trigger.
   */
  method ScanForTrigger(arrivals: seq<seq<Byte>>) returns (found: bool, taken: nat)
    ensures taken <= |arrivals| && forall i :: 0 <= i < taken ==> arrivals[i] != []
    ensures found ==> Contains(Arrived(arrivals, taken))
    ensures forall k :: 0 <= k < taken ==> !Contains(Arrived(arrivals, k))
    ensures !found ==> !Contains(Arrived(arrivals, taken)) && (taken == |arrivals| || arrivals[taken] == [])
  {
    var window: seq<Byte> := [];
    taken := 0;
    found := false;
    while !found && taken < |arrivals| && arrivals[taken] != []
      invariant taken <= |arrivals|
      invariant forall i :: 0 <= i < taken ==> arrivals[i] != []
      invariant forall k :: 0 <= k < taken ==> !Contains(Arrived(arrivals, k))
      invariant found <==> Contains(Arrived(arrivals, taken))
      invariant !found ==> window == Last10(Arrived(arrivals, taken))
      decreases |arrivals| - taken
    {
      ArrivedNext(arrivals, taken);
      found, window := TakeArrival(window, arrivals[taken], Arrived(arrivals, taken));
      taken := taken + 1;
    }
  }
}
