/**
  Protocol stacks of crates/evaluator-server/src/orchestrator.rs: resolving stack names to the
  protocols to measure, and the per-stack verdict computed from the measurements.
 */
module Stacks {
  datatype Latency = Latency(min: real, max: real, avg: real, p50: real, p95: real, p99: real)

  datatype Bandwidth = Bandwidth(upload: real, download: real)

  datatype Metrics = Metrics(latency: Latency, bandwidth: Bandwidth, loss: real)

  /** Constituents of each named stack. */
  type Table = map<string, seq<string>>

  const STACKS: Table :=
    map["tier1" := ["reality"], "tier2" := ["reality"], "tier3" := ["ws+tls"],
        "tier4" := ["shadowtls"], "post-quantum" := ["reality"], "legacy" := ["vmess"]]

  /** The requested names after splitting and trimming; `All` stands for none, empty and "all". */
  datatype Requested = All | Names(names: seq<string>)

  function RequestedNames(requested: Requested, order: seq<string>): seq<string> {
    match requested
    case All => order
    case Names(names) => names
  }

  // ---- resolving ----

  ghost predicate Distinct(s: seq<string>) {
    forall i, j :: 0 <= i < j < |s| ==> s[i] != s[j]
  }

  function ValidNames(table: Table, names: seq<string>): seq<string> {
    if names == [] then []
    else
      var before := ValidNames(table, names[..|names| - 1]);
      var name := names[|names| - 1];
      if name in table then before + [name] else before
  }

  /** `from` is a prefix of the result, which adds each new element of `s` where it first occurs. */
  function AddNew(from: seq<string>, s: seq<string>): seq<string> {
    if s == [] then from
    else
      var before := AddNew(from, s[..|s| - 1]);
      var p := s[|s| - 1];
      if p in before then before else before + [p]
  }

  function Resolved(table: Table, names: seq<string>): seq<string> {
    if names == [] then []
    else
      var before := Resolved(table, names[..|names| - 1]);
      var name := names[|names| - 1];
      if name in table then AddNew(before, table[name]) else before
  }

  method AddStack(from: seq<string>, constituents: seq<string>) returns (protocols: seq<string>)
    ensures protocols == AddNew(from, constituents)
  {
    protocols := from;
    for k := 0 to |constituents|
      invariant protocols == AddNew(from, constituents[..k])
    {
      assert constituents[..k + 1][..k] == constituents[..k];
      if constituents[k] !in protocols {
        protocols := protocols + [constituents[k]];
      }
    }
    assert constituents[..|constituents|] == constituents;
  }

  /**
    The protocols are distinct and are exactly the constituents of the recognised names, which are
    returned in the order requested.
   */
  method ResolveStacks(table: Table, order: seq<string>, requested: Requested)
    returns (protocols: seq<string>, validNames: seq<string>)
    ensures var names := RequestedNames(requested, order);
            && protocols == Resolved(table, names) && validNames == ValidNames(table, names)
    ensures Distinct(protocols)
    ensures forall p :: p in protocols <==> exists n :: n in validNames && n in table && p in table[n]
    ensures forall n :: n in validNames <==> n in RequestedNames(requested, order) && n in table
  {
    var stackNames := RequestedNames(requested, order);
    protocols, validNames := [], [];
    for k := 0 to |stackNames|
      invariant protocols == Resolved(table, stackNames[..k])
      invariant validNames == ValidNames(table, stackNames[..k])
    {
      assert stackNames[..k + 1][..k] == stackNames[..k];
      var name := stackNames[k];
      if name in table {
        validNames := validNames + [name];
        protocols := AddStack(protocols, table[name]);
      }
    }
    assert stackNames[..|stackNames|] == stackNames;
    ResolvedIsExact(table, stackNames);
  }

  lemma {:induction false} AddNewIsExact(from: seq<string>, s: seq<string>)
    requires Distinct(from)
    ensures Distinct(AddNew(from, s)) && from <= AddNew(from, s)
    ensures forall p :: p in AddNew(from, s) <==> p in from || p in s
    decreases |s|
  {
    if s != [] {
      var init, p := s[..|s| - 1], s[|s| - 1];
      AddNewIsExact(from, init);
      assert s == init + [p];
    }
  }

  lemma {:induction false} ResolvedIsExact(table: Table, names: seq<string>)
    ensures Distinct(Resolved(table, names))
    ensures forall n :: n in ValidNames(table, names) <==> n in names && n in table
    ensures forall p :: p in Resolved(table, names) <==>
                        exists n :: n in ValidNames(table, names) && n in table && p in table[n]
    decreases |names|
  {
    if names != [] {
      var init, name := names[..|names| - 1], names[|names| - 1];
      ResolvedIsExact(table, init);
      assert names == init + [name];
      if name in table {
        AddNewIsExact(Resolved(table, init), table[name]);
        assert ValidNames(table, names) == ValidNames(table, init) + [name];
        assert name in ValidNames(table, names);
      }
    }
  }

  // ---- verdicts ----

  datatype StackResult = StackResult(name: string, passed: bool, constituents: seq<string>, failing: seq<string>)

  /** Some measurement paired with `p` shows loss; the pairing stops at the shorter list. */
  predicate Fails(protocols: seq<string>, results: seq<Metrics>, p: string) {
    exists i :: 0 <= i < |protocols| && i < |results| && protocols[i] == p && results[i].loss > 0.0
  }

  function Failing(protocols: seq<string>, results: seq<Metrics>, constituents: seq<string>): seq<string> {
    if constituents == [] then []
    else
      var rest := Failing(protocols, results, constituents[1..]);
      if Fails(protocols, results, constituents[0]) then [constituents[0]] + rest else rest
  }

  function Summary(table: Table, names: seq<string>, protocols: seq<string>, results: seq<Metrics>): seq<StackResult> {
    if names == [] then []
    else
      var rest := Summary(table, names[1..], protocols, results);
      if names[0] in table then
        var failing := Failing(protocols, results, table[names[0]]);
        [StackResult(names[0], failing == [], table[names[0]], failing)] + rest
      else rest
  }

  lemma {:induction false} FailingIsExact(protocols: seq<string>, results: seq<Metrics>, constituents: seq<string>)
    ensures var f := Failing(protocols, results, constituents);
            forall p :: p in f <==> p in constituents && Fails(protocols, results, p)
  {
    if constituents != [] {
      FailingIsExact(protocols, results, constituents[1..]);
      assert constituents == [constituents[0]] + constituents[1..];
    }
  }

  lemma {:induction false} PassIsExact(protocols: seq<string>, results: seq<Metrics>, constituents: seq<string>)
    ensures Failing(protocols, results, constituents) == [] <==>
            forall p :: p in constituents ==> !Fails(protocols, results, p)
  {
    var f := Failing(protocols, results, constituents);
    FailingIsExact(protocols, results, constituents);
    if f != [] {
      assert f[0] in f;
    } else {
      assert forall p :: p !in f;
    }
  }

  lemma {:induction false} SummaryEntries(table: Table, names: seq<string>, protocols: seq<string>, results: seq<Metrics>)
    requires forall n :: n in names ==> n in table
    ensures var s := Summary(table, names, protocols, results);
            && |s| == |names|
            && forall j :: 0 <= j < |s| ==>
                 && s[j].name == names[j] && s[j].constituents == table[names[j]]
                 && (s[j].passed <==> Failing(protocols, results, table[names[j]]) == [])
  {
    if names != [] {
      assert names[0] in table;
      assert forall n :: n in names[1..] ==> n in names;
      SummaryEntries(table, names[1..], protocols, results);
    }
  }

  /** Every entry of a summary passes exactly when none of its constituents fails. */
  lemma {:induction false} SummaryVerdicts(table: Table, names: seq<string>, protocols: seq<string>, results: seq<Metrics>)
    ensures forall e :: e in Summary(table, names, protocols, results) ==>
                          (e.passed <==> forall p :: p in e.constituents ==> !Fails(protocols, results, p))
  {
    if names != [] {
      SummaryVerdicts(table, names[1..], protocols, results);
      if names[0] in table {
        PassIsExact(protocols, results, table[names[0]]);
      }
    }
  }

  /** The protocol was measured, and without loss each time. */
  ghost predicate Clean(protocols: seq<string>, results: seq<Metrics>, p: string) {
    && (exists i :: 0 <= i < |protocols| && i < |results| && protocols[i] == p)
    && forall i :: 0 <= i < |protocols| && i < |results| && protocols[i] == p ==> results[i].loss == 0.0
  }

  ghost predicate Measured(protocols: seq<string>, results: seq<Metrics>) {
    && |results| == |protocols|
    && forall i :: 0 <= i < |results| ==> results[i].loss >= 0.0
  }

  lemma {:induction false} CleanWhenPresent(protocols: seq<string>, results: seq<Metrics>, p: string)
    requires Measured(protocols, results) && p in protocols
    ensures Clean(protocols, results, p) <==> !Fails(protocols, results, p)
  {
    if !Fails(protocols, results, p) {
      assert forall i :: 0 <= i < |protocols| && i < |results| && protocols[i] == p ==> !(results[i].loss > 0.0);
      assert forall i :: 0 <= i < |protocols| && i < |results| && protocols[i] == p ==> results[i].loss == 0.0;
    }
  }

  /** Some measurement paired with one of the constituents shows loss. */
  ghost predicate LossIn(names: seq<string>, results: seq<Metrics>, constituents: seq<string>) {
    exists j :: 0 <= j < |names| && j < |results| && names[j] in constituents && results[j].loss > 0.0
  }

  lemma {:induction false} PassMeansNoLoss(protocols: seq<string>, results: seq<Metrics>, constituents: seq<string>)
    ensures Failing(protocols, results, constituents) == [] <==> !LossIn(protocols, results, constituents)
  {
    PassIsExact(protocols, results, constituents);
    if LossIn(protocols, results, constituents) {
      var j :| 0 <= j < |protocols| && j < |results| && protocols[j] in constituents && results[j].loss > 0.0;
      assert Fails(protocols, results, protocols[j]);
    }
  }

  lemma {:induction false} CleanMeansNoLoss(measured: seq<string>, results: seq<Metrics>, constituents: seq<string>)
    requires Measured(measured, results) && forall p :: p in constituents ==> p in measured
    ensures (forall p :: p in constituents ==> Clean(measured, results, p)) <==> !LossIn(measured, results, constituents)
  {
    forall p | p in constituents ensures Clean(measured, results, p) <==> !Fails(measured, results, p) {
      CleanWhenPresent(measured, results, p);
    }
    PassIsExact(measured, results, constituents);
    PassMeansNoLoss(measured, results, constituents);
  }

  // ---- when a verdict can be trusted ----

  /**
    The server pairs `results` with the protocols it was to run, `protocols`; they belong to those that
    were really measured, `measured`. The verdict is right when passing means that every constituent
    was measured without loss.
   */
  ghost predicate VerdictRight(protocols: seq<string>, measured: seq<string>, results: seq<Metrics>, constituents: seq<string>) {
    Failing(protocols, results, constituents) == [] <==> forall p :: p in constituents ==> Clean(measured, results, p)
  }

  /** Every constituent is measured, and each result is paired with a constituent exactly when it belongs to one. */
  ghost predicate Aligned(protocols: seq<string>, measured: seq<string>, constituents: seq<string>)
    requires |measured| <= |protocols|
  {
    && (forall p :: p in constituents ==> p in measured)
    && (forall j :: 0 <= j < |measured| ==> (protocols[j] in constituents <==> measured[j] in constituents))
  }

  lemma {:induction false} AlignedIsRight(protocols: seq<string>, measured: seq<string>, results: seq<Metrics>, constituents: seq<string>)
    requires |measured| <= |protocols| && Measured(measured, results) && Aligned(protocols, measured, constituents)
    ensures VerdictRight(protocols, measured, results, constituents)
  {
    PassMeansNoLoss(protocols, results, constituents);
    CleanMeansNoLoss(measured, results, constituents);
  }

  /** Loss at one position, or nowhere when `bad` is out of range. */
  ghost predicate OnlyLossAt(results: seq<Metrics>, bad: nat) {
    forall j :: 0 <= j < |results| ==> (results[j].loss > 0.0 <==> j == bad)
  }

  /** Otherwise some place for the loss gives the wrong verdict. */
  lemma {:induction false} MisalignedIsWrong(protocols: seq<string>, measured: seq<string>, constituents: seq<string>)
    returns (bad: nat)
    requires |measured| <= |protocols| && !Aligned(protocols, measured, constituents)
    ensures forall results :: Measured(measured, results) && OnlyLossAt(results, bad) ==>
                                !VerdictRight(protocols, measured, results, constituents)
  {
    if p :| p in constituents && p !in measured {
      bad := |measured|;
    } else {
      bad :| 0 <= bad < |measured| && !(protocols[bad] in constituents <==> measured[bad] in constituents);
    }
    forall results | Measured(measured, results) && OnlyLossAt(results, bad)
      ensures !VerdictRight(protocols, measured, results, constituents)
    {
      PassMeansNoLoss(protocols, results, constituents);
      if bad < |measured| {
        CleanMeansNoLoss(measured, results, constituents);
        assert protocols[bad] in constituents ==> LossIn(protocols, results, constituents);
        assert measured[bad] in constituents ==> LossIn(measured, results, constituents);
      }
    }
  }

  function LossAt(n: nat, bad: nat): (r: seq<Metrics>)
    ensures |r| == n && OnlyLossAt(r, bad) && forall i :: 0 <= i < n ==> r[i].loss >= 0.0
  {
    seq(n, i => Metrics(Latency(0.0, 0.0, 0.0, 0.0, 0.0, 0.0), Bandwidth(0.0, 0.0), if i == bad then 100.0 else 0.0))
  }

  /** A stack's verdict is right for all measurements exactly when the lists are aligned. */
  lemma {:induction false} VerdictsExact(protocols: seq<string>, measured: seq<string>, constituents: seq<string>)
    requires |measured| <= |protocols|
    ensures (forall results :: Measured(measured, results) ==> VerdictRight(protocols, measured, results, constituents)) <==>
            Aligned(protocols, measured, constituents)
  {
    if Aligned(protocols, measured, constituents) {
      forall results | Measured(measured, results) ensures VerdictRight(protocols, measured, results, constituents) {
        AlignedIsRight(protocols, measured, results, constituents);
      }
    } else {
      var bad := MisalignedIsWrong(protocols, measured, constituents);
      assert Measured(measured, LossAt(|measured|, bad));
    }
  }

  /**
    When everything on a list is measured, the verdict is right for all measurements exactly when the
    list contains every constituent: with a client's own list a stack can pass unmeasured.
   */
  lemma {:induction false} SelectionVerdicts(protocols: seq<string>, constituents: seq<string>)
    ensures (forall results :: Measured(protocols, results) ==> VerdictRight(protocols, protocols, results, constituents)) <==>
            (forall p :: p in constituents ==> p in protocols)
  {
    VerdictsExact(protocols, protocols, constituents);
  }

  /**
    In stack mode with the server's own list, every requested stack passes exactly when each of its
    constituents was measured and showed no loss.
   */
  lemma {:induction false} StackModeVerdicts(table: Table, requested: seq<string>, results: seq<Metrics>)
    requires Measured(Resolved(table, requested), results)
    ensures var protocols, names := Resolved(table, requested), ValidNames(table, requested);
            var s := Summary(table, names, protocols, results);
            && |s| == |names|
            && forall j :: 0 <= j < |s| ==>
                 && s[j].name == names[j] && names[j] in table
                 && (s[j].passed <==> forall p :: p in table[names[j]] ==> Clean(protocols, results, p))
  {
    var protocols, names := Resolved(table, requested), ValidNames(table, requested);
    ResolvedIsExact(table, requested);
    SummaryEntries(table, names, protocols, results);
    forall j | 0 <= j < |names| ensures names[j] in table && VerdictRight(protocols, protocols, results, table[names[j]]) {
      assert names[j] in names;
      assert forall p :: p in table[names[j]] ==> p in protocols;
      AlignedIsRight(protocols, protocols, results, table[names[j]]);
    }
  }

  // ---- protocols whose targets cannot be started ----

  /** The items whose targets start, in order. */
  function Collected<T>(starts: nat -> bool, items: seq<T>): (r: seq<T>)
    ensures |r| <= |items|
  {
    if items == [] then []
    else
      var n := |items| - 1;
      Collected(starts, items[..n]) + if starts(n) then [items[n]] else []
  }

  /** How many of the first `i` start: where the result of item `i` is put. */
  function Landing(starts: nat -> bool, i: nat): (n: nat)
    ensures n <= i
  {
    if i == 0 then 0 else Landing(starts, i - 1) + if starts(i - 1) then 1 else 0
  }

  lemma {:induction false} CollectedAt<T>(starts: nat -> bool, items: seq<T>, i: nat)
    requires i < |items| && starts(i)
    ensures |Collected(starts, items)| == Landing(starts, |items|)
    ensures Landing(starts, i) < |Collected(starts, items)| && Collected(starts, items)[Landing(starts, i)] == items[i]
  {
    var n := |items| - 1;
    CollectedLength(starts, items);
    CollectedLength(starts, items[..n]);
    if i < n {
      CollectedAt(starts, items[..n], i);
    }
  }

  lemma {:induction false} CollectedLength<T>(starts: nat -> bool, items: seq<T>)
    ensures |Collected(starts, items)| == Landing(starts, |items|)
  {
    if items != [] {
      CollectedLength(starts, items[..|items| - 1]);
    }
  }

  lemma {:induction false} CollectedFrom<T>(starts: nat -> bool, items: seq<T>, j: nat) returns (i: nat)
    requires j < |Collected(starts, items)|
    ensures i < |items| && starts(i) && Landing(starts, i) == j && Collected(starts, items)[j] == items[i]
  {
    var n := |items| - 1;
    CollectedLength(starts, items[..n]);
    if j < |Collected(starts, items[..n])| {
      i := CollectedFrom(starts, items[..n], j);
    } else {
      i := n;
    }
  }

  /** The first `n` all start. */
  ghost predicate AllStart(starts: nat -> bool, n: nat) {
    forall i :: 0 <= i < n ==> starts(i)
  }

  lemma {:induction false} LandingFull(starts: nat -> bool, n: nat)
    ensures Landing(starts, n) == n <==> AllStart(starts, n)
  {
    if n > 0 {
      LandingFull(starts, n - 1);
    }
  }

  lemma {:induction false} CollectedAll<T>(starts: nat -> bool, items: seq<T>)
    requires AllStart(starts, |items|)
    ensures Collected(starts, items) == items
  {
    if items != [] {
      CollectedAll(starts, items[..|items| - 1]);
    }
  }

  /** Every constituent stands on the list at an index up to which all targets start. */
  ghost predicate StartedUpTo(starts: nat -> bool, protocols: seq<string>, constituents: seq<string>) {
    forall p :: p in constituents ==> p in protocols && exists c :: 0 <= c < |protocols| && protocols[c] == p && AllStart(starts, c + 1)
  }

  lemma {:induction false} AlignedLanding(starts: nat -> bool, protocols: seq<string>, constituents: seq<string>, c: nat)
    returns (at: nat)
    requires Distinct(protocols) && c < |protocols| && protocols[c] in constituents
    requires Aligned(protocols, Collected(starts, protocols), constituents)
    ensures at < |Collected(starts, protocols)| && Collected(starts, protocols)[at] == protocols[c]
    ensures at <= c && protocols[at] in constituents && starts(c) && Landing(starts, c) == at
  {
    var measured := Collected(starts, protocols);
    assert protocols[c] in measured;
    at :| 0 <= at < |measured| && measured[at] == protocols[c];
    LandsAt(starts, protocols, c, at);
  }

  lemma {:induction false} AlignedStarts(starts: nat -> bool, protocols: seq<string>, constituents: seq<string>, c: nat)
    requires Distinct(protocols) && c < |protocols| && protocols[c] in constituents
    requires Aligned(protocols, Collected(starts, protocols), constituents)
    ensures AllStart(starts, c + 1)
    decreases c
  {
    var at := AlignedLanding(starts, protocols, constituents, c);
    if at < c {
      AlignedStarts(starts, protocols, constituents, at);
    }
    StaysAt(starts, protocols, c, at);
    LandingFull(starts, c);
  }

  /** A result cannot move to an index up to which everything starts. */
  lemma {:induction false} StaysAt(starts: nat -> bool, protocols: seq<string>, c: nat, at: nat)
    requires Distinct(protocols) && at <= c < |protocols| && (at < c ==> AllStart(starts, at + 1))
    requires at < |Collected(starts, protocols)| && Collected(starts, protocols)[at] == protocols[c]
    ensures at == c
  {
    if at < c {
      InPlace(starts, protocols, at);
    }
  }

  lemma {:induction false} LandsAt(starts: nat -> bool, protocols: seq<string>, c: nat, at: nat)
    requires Distinct(protocols) && c < |protocols|
    requires at < |Collected(starts, protocols)| && Collected(starts, protocols)[at] == protocols[c]
    ensures starts(c) && Landing(starts, c) == at
  {
    var i := CollectedFrom(starts, protocols, at);
    assert protocols[i] == protocols[c];
  }

  /** Where all targets up to an index start, the result of that index stays in place. */
  lemma {:induction false} InPlace(starts: nat -> bool, protocols: seq<string>, at: nat)
    requires at < |protocols| && AllStart(starts, at + 1)
    ensures at < |Collected(starts, protocols)| && Collected(starts, protocols)[at] == protocols[at]
  {
    LandingFull(starts, at);
    CollectedAt(starts, protocols, at);
  }

  lemma {:induction false} StartedAligned(starts: nat -> bool, protocols: seq<string>, constituents: seq<string>)
    requires StartedUpTo(starts, protocols, constituents) && Distinct(protocols)
    ensures Aligned(protocols, Collected(starts, protocols), constituents)
  {
    var measured := Collected(starts, protocols);
    forall p | p in constituents ensures p in measured {
      var c :| 0 <= c < |protocols| && protocols[c] == p && AllStart(starts, c + 1);
      CollectedAt(starts, protocols, c);
    }
    forall j | 0 <= j < |measured| ensures protocols[j] in constituents <==> measured[j] in constituents {
      PairedRight(starts, protocols, constituents, j);
    }
  }

  lemma {:induction false} PairedRight(starts: nat -> bool, protocols: seq<string>, constituents: seq<string>, j: nat)
    requires StartedUpTo(starts, protocols, constituents) && Distinct(protocols) && j < |Collected(starts, protocols)|
    ensures protocols[j] in constituents <==> Collected(starts, protocols)[j] in constituents
  {
    var i := CollectedFrom(starts, protocols, j);
    if protocols[j] in constituents {
      var c :| 0 <= c < |protocols| && protocols[c] == protocols[j] && AllStart(starts, c + 1);
      assert c == j;
      LandingFull(starts, j);
      CollectedAt(starts, protocols, j);
    }
    if protocols[i] in constituents {
      var c :| 0 <= c < |protocols| && protocols[c] == protocols[i] && AllStart(starts, c + 1);
      assert c == i;
      LandingFull(starts, i);
    }
  }

  /**
    On a list without repetitions, a stack's verdict is right for all measurements if and only if no
    target fails to start at or before the index of any constituent.
   */
  lemma {:induction false} SkipVerdicts(starts: nat -> bool, protocols: seq<string>, constituents: seq<string>)
    requires Distinct(protocols)
    ensures Aligned(protocols, Collected(starts, protocols), constituents) <==> StartedUpTo(starts, protocols, constituents)
    ensures (forall results :: Measured(Collected(starts, protocols), results) ==>
                                 VerdictRight(protocols, Collected(starts, protocols), results, constituents)) <==>
            StartedUpTo(starts, protocols, constituents)
  {
    var measured := Collected(starts, protocols);
    VerdictsExact(protocols, measured, constituents);
    if Aligned(protocols, measured, constituents) {
      forall p | p in constituents
        ensures p in protocols && exists c :: 0 <= c < |protocols| && protocols[c] == p && AllStart(starts, c + 1)
      {
        var at :| 0 <= at < |measured| && measured[at] == p;
        var c := CollectedFrom(starts, protocols, at);
        AlignedStarts(starts, protocols, constituents, c);
      }
    } else if StartedUpTo(starts, protocols, constituents) {
      StartedAligned(starts, protocols, constituents);
    }
  }
}
