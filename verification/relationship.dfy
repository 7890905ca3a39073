/** The 2×2 relationship table (`relationshipBetween`, `moodWhen`,
    `ReferenceState.hasState`) and its derived contrasts (`diffsWhen`,
    `diffsInDiffs`). A reference is a tag name or a group name; a period has it
    when one of its tag entries carries that name. Reading a field of an
    undefined tag entry throws, so every step that scans tag entries can fail. */
module Relationship {

  import opened Results
  import Seqs
  import Converter
  import opened Grouping
  import Aggregates

  datatype ReferenceType = TagReference | GroupReference

  datatype Reference = Reference(name: string, kind: ReferenceType)

  datatype ReferenceState = ReferenceState(reference: Reference, present: bool)

  /** One cell: the states it asks for, how many periods meet them, and their
      mean mood (NaN, here None, over no periods). */
  datatype RelationshipStat = RelationshipStat(states: seq<ReferenceState>, count: nat, averageMood: Option<real>)

  datatype RelationshipStats = RelationshipStats(
    refA: Reference,
    refB: Reference,
    aYbY: RelationshipStat,
    aYbN: RelationshipStat,
    aNbY: RelationshipStat,
    aNbN: RelationshipStat)

  /** The name a reference of the given kind compares against. */
  function FieldOf(t: Converter.Tag, kind: ReferenceType): string {
    match kind
    case TagReference => t.tagName
    case GroupReference => t.groupName
  }

  predicate Matches(t: Converter.TagRef, ref: Reference) {
    t.Defined? && FieldOf(t.tag, ref.kind) == ref.name
  }

  /** `tagEntries.some((e) => e.<field> === ref.name)`: scans in order and stops
      at the first match; an undefined entry reached before any match throws. */
  function Present(ts: seq<Converter.TagRef>, ref: Reference): (r: Result<bool>)
    ensures r.Failure? ==> r.error == UndefinedTag
    ensures r.Success? ==> (r.value <==> exists i :: 0 <= i < |ts| && Matches(ts[i], ref))
    ensures r.Failure? <==>
      exists i :: 0 <= i < |ts| && ts[i].Undefined? && forall j :: 0 <= j < i ==> !Matches(ts[j], ref)
  {
    if |ts| == 0 then Success(false)
    else
      assert forall i :: 0 < i < |ts| ==> ts[i] == ts[1..][i - 1];
      match ts[0]
      case Undefined => Failure(UndefinedTag)
      case Defined(_, t) =>
        if FieldOf(t, ref.kind) == ref.name then Success(true) else Present(ts[1..], ref)
  }

  /** Over defined tag entries the scan never throws and answers whether some
      entry carries the name. */
  lemma PresentDefined(ts: seq<Converter.TagRef>, ref: Reference)
    requires Converter.Undefined !in ts
    ensures Present(ts, ref) == Success(exists i :: 0 <= i < |ts| && Matches(ts[i], ref))
  {
  }

  /** `hasState`: whether the period has the reference, negated for an absent
      state. */
  function HasState(s: ReferenceState, p: GroupedPeriod): (r: Result<bool>)
    ensures r.Success? <==> Present(p.tagEntries, s.reference).Success?
    ensures r.Failure? ==> r.error == UndefinedTag
    ensures r.Success? ==>
      (r.value <==> (s.present <==> exists i :: 0 <= i < |p.tagEntries| && Matches(p.tagEntries[i], s.reference)))
  {
    var b :- Present(p.tagEntries, s.reference);
    Success(if s.present then b else !b)
  }

  /** An absent state holds exactly where the present state does not, and both
      throw on the same periods. */
  lemma HasStateNegation(ref: Reference, p: GroupedPeriod)
    ensures HasState(ReferenceState(ref, false), p).Success? <==> HasState(ReferenceState(ref, true), p).Success?
    ensures HasState(ReferenceState(ref, true), p).Success? ==>
      HasState(ReferenceState(ref, false), p).value == !HasState(ReferenceState(ref, true), p).value
  {
  }

  /** `states.every((s) => s.hasState(entry))`: stops at the first state that
      does not hold, so later states are not evaluated. */
  function Every(states: seq<ReferenceState>, p: GroupedPeriod): (r: Result<bool>)
    ensures r.Failure? ==> r.error == UndefinedTag
    ensures |states| == 0 ==> r == Success(true)
  {
    if |states| == 0 then Success(true)
    else
      var b :- HasState(states[0], p);
      if !b then Success(false) else Every(states[1..], p)
  }

  /** All states hold exactly when each state's test succeeds with true. */
  lemma {:induction false} EveryAll(states: seq<ReferenceState>, p: GroupedPeriod)
    ensures Every(states, p) == Success(true) <==>
      forall i :: 0 <= i < |states| ==> HasState(states[i], p) == Success(true)
  {
    if |states| > 0 {
      assert forall i :: 0 < i < |states| ==> states[i] == states[1..][i - 1];
      EveryAll(states[1..], p);
    }
  }

  predicate Holds(states: seq<ReferenceState>, p: GroupedPeriod) {
    Every(states, p) == Success(true)
  }

  /** The filter's callback: whether a period meets all states. */
  function Meets(states: seq<ReferenceState>): GroupedPeriod -> bool {
    (p: GroupedPeriod) => Holds(states, p)
  }

  /** `periods.filter((entry) => states.every(...))`: the periods meeting all
      states, in order; the first period whose test throws ends the scan. */
  function FilterPeriods(ps: seq<GroupedPeriod>, states: seq<ReferenceState>): (r: Result<seq<GroupedPeriod>>)
    ensures r.Success? <==> forall i :: 0 <= i < |ps| ==> Every(states, ps[i]).Success?
    ensures r.Failure? ==> r.error == UndefinedTag
    ensures r.Success? ==> r.value == Seqs.Filter(ps, Meets(states))
  {
    if |ps| == 0 then Success([])
    else
      ScansSplit(ps, states);
      var b :- Every(states, ps[0]);
      var rest :- FilterPeriods(ps[1..], states);
      FilterUnfold(ps, Meets(states));
      Success(if b then [ps[0]] + rest else rest)
  }

  /** Every period's scan succeeds exactly when the first one's and the
      rest's do. */
  lemma {:induction false} ScansSplit(ps: seq<GroupedPeriod>, states: seq<ReferenceState>)
    requires |ps| > 0
    ensures (forall i :: 0 <= i < |ps| ==> Every(states, ps[i]).Success?) <==>
      (Every(states, ps[0]).Success? && forall i :: 0 <= i < |ps[1..]| ==> Every(states, ps[1..][i]).Success?)
  {
    assert forall i :: 0 < i < |ps| ==> ps[i] == ps[1..][i - 1];
  }

  lemma {:induction false} FilterUnfold(ps: seq<GroupedPeriod>, f: GroupedPeriod -> bool)
    requires |ps| > 0
    ensures Seqs.Filter(ps, f) == if f(ps[0]) then [ps[0]] + Seqs.Filter(ps[1..], f) else Seqs.Filter(ps[1..], f)
  {
  }

  /** `moodWhen`: the number of periods meeting all states and the mean of
      their average moods. */
  function MoodWhen(ps: seq<GroupedPeriod>, states: seq<ReferenceState>): (r: Result<RelationshipStat>)
    ensures r.Success? <==> FilterPeriods(ps, states).Success?
    ensures r.Failure? ==> r.error == UndefinedTag
    ensures r.Success? ==>
      var matching := Seqs.Filter(ps, Meets(states));
      && r.value.states == states
      && r.value.count == |matching|
      && r.value.averageMood == Aggregates.Mean(Aggregates.Averages(matching))
  {
    var matching :- FilterPeriods(ps, states);
    Success(RelationshipStat(states, |matching|, Aggregates.Mean(Aggregates.Averages(matching))))
  }

  function Both(a: Reference, x: bool, b: Reference, y: bool): seq<ReferenceState> {
    [ReferenceState(a, x), ReferenceState(b, y)]
  }

  /** `relationshipBetween`: the four cells, in the order yes/yes, yes/no,
      no/yes, no/no for (A, B). */
  function RelationshipBetween(ps: seq<GroupedPeriod>, a: Reference, b: Reference): (r: Result<RelationshipStats>)
    ensures r.Failure? ==> r.error == UndefinedTag
    ensures r.Success? ==> r.value.refA == a && r.value.refB == b
    ensures r.Success? ==>
      && r.value.aYbY.states == Both(a, true, b, true)
      && r.value.aYbN.states == Both(a, true, b, false)
      && r.value.aNbY.states == Both(a, false, b, true)
      && r.value.aNbN.states == Both(a, false, b, false)
  {
    var yy :- MoodWhen(ps, Both(a, true, b, true));
    var yn :- MoodWhen(ps, Both(a, true, b, false));
    var ny :- MoodWhen(ps, Both(a, false, b, true));
    var nn :- MoodWhen(ps, Both(a, false, b, false));
    Success(RelationshipStats(a, b, yy, yn, ny, nn))
  }

  /** Whether the period has the reference, where that is decided. */
  predicate Has(p: GroupedPeriod, ref: Reference) {
    Present(p.tagEntries, ref) == Success(true)
  }

  /** The periods with a given combination of A and B, in order. */
  function Cell(ps: seq<GroupedPeriod>, a: Reference, x: bool, b: Reference, y: bool): (r: seq<GroupedPeriod>)
    ensures |r| <= |ps|
    ensures forall p :: p in r <==> p in ps && Has(p, a) == x && Has(p, b) == y
  {
    if |ps| == 0 then []
    else
      var rest := Cell(ps[1..], a, x, b, y);
      assert forall p :: p in ps <==> p == ps[0] || p in ps[1..];
      if Has(ps[0], a) == x && Has(ps[0], b) == y then [ps[0]] + rest else rest
  }

  /** Once A's and B's scans both succeed on a period, the two-state test is
      exactly the combination of their answers. */
  lemma HoldsBoth(p: GroupedPeriod, a: Reference, x: bool, b: Reference, y: bool)
    requires Present(p.tagEntries, a).Success? && Present(p.tagEntries, b).Success?
    ensures Every(Both(a, x, b, y), p) == Success(Has(p, a) == x && Has(p, b) == y)
  {
    var s := Both(a, x, b, y);
    assert HasState(s[0], p) == Success(Has(p, a) == x);
    assert HasState(s[1], p) == Success(Has(p, b) == y);
    assert s[1..][1..] == [];
    assert Every(s[1..], p) == Success(Has(p, b) == y);
  }

  /** With both scans succeeding everywhere, a cell's filter keeps exactly the
      periods with its combination. */
  lemma {:induction false} FilterIsCell(ps: seq<GroupedPeriod>, a: Reference, x: bool, b: Reference, y: bool)
    requires forall i :: 0 <= i < |ps| ==> Present(ps[i].tagEntries, a).Success? && Present(ps[i].tagEntries, b).Success?
    ensures FilterPeriods(ps, Both(a, x, b, y)) == Success(Cell(ps, a, x, b, y))
  {
    if |ps| > 0 {
      HoldsBoth(ps[0], a, x, b, y);
      assert forall i :: 0 <= i < |ps| - 1 ==> ps[1..][i] == ps[i + 1];
      FilterIsCell(ps[1..], a, x, b, y);
    }
  }

  /** Every period falls in exactly one of the four cells. */
  lemma {:induction false} CellsCover(ps: seq<GroupedPeriod>, a: Reference, b: Reference)
    ensures |Cell(ps, a, true, b, true)| + |Cell(ps, a, true, b, false)|
          + |Cell(ps, a, false, b, true)| + |Cell(ps, a, false, b, false)| == |ps|
  {
    if |ps| > 0 {
      CellsCover(ps[1..], a, b);
    }
  }

  /** A successful table means both scans succeeded on every period: A is
      evaluated in every cell, B in the yes/yes cell where A is present and in the
      no/yes cell where it is absent. */
  lemma TableScansSucceed(ps: seq<GroupedPeriod>, a: Reference, b: Reference, i: nat)
    requires RelationshipBetween(ps, a, b).Success?
    requires i < |ps|
    ensures Present(ps[i].tagEntries, a).Success? && Present(ps[i].tagEntries, b).Success?
  {
    var p := ps[i];
    var s1 := Both(a, true, b, true);
    var s3 := Both(a, false, b, true);
    assert MoodWhen(ps, s1).Success? && MoodWhen(ps, s3).Success?;
    assert Every(s1, p).Success? && Every(s3, p).Success?;
    assert HasState(s1[0], p).Success?;
    assert s1[1..] == [ReferenceState(b, true)];
    assert s3[1..] == [ReferenceState(b, true)];
    if Present(p.tagEntries, a).value {
      assert Every(s1[1..], p).Success?;
    } else {
      assert Every(s3[1..], p).Success?;
    }
  }

  /** The four cells split the periods: each cell counts and averages the
      periods with its combination of A and B, and the four counts add up to
      the number of periods. */
  lemma RelationshipPartition(ps: seq<GroupedPeriod>, a: Reference, b: Reference)
    requires RelationshipBetween(ps, a, b).Success?
    ensures var t := RelationshipBetween(ps, a, b).value;
      && t.aYbY.count == |Cell(ps, a, true, b, true)|
      && t.aYbN.count == |Cell(ps, a, true, b, false)|
      && t.aNbY.count == |Cell(ps, a, false, b, true)|
      && t.aNbN.count == |Cell(ps, a, false, b, false)|
      && t.aYbY.averageMood == Aggregates.Mean(Aggregates.Averages(Cell(ps, a, true, b, true)))
      && t.aYbN.averageMood == Aggregates.Mean(Aggregates.Averages(Cell(ps, a, true, b, false)))
      && t.aNbY.averageMood == Aggregates.Mean(Aggregates.Averages(Cell(ps, a, false, b, true)))
      && t.aNbN.averageMood == Aggregates.Mean(Aggregates.Averages(Cell(ps, a, false, b, false)))
      && t.aYbY.count + t.aYbN.count + t.aNbY.count + t.aNbN.count == |ps|
  {
    forall i | 0 <= i < |ps|
      ensures Present(ps[i].tagEntries, a).Success? && Present(ps[i].tagEntries, b).Success?
    {
      TableScansSucceed(ps, a, b, i);
    }
    FilterIsCell(ps, a, true, b, true);
    FilterIsCell(ps, a, true, b, false);
    FilterIsCell(ps, a, false, b, true);
    FilterIsCell(ps, a, false, b, false);
    CellsCover(ps, a, b);
  }

  /** Over defined tag entries the table never throws. */
  lemma RelationshipDefined(ps: seq<GroupedPeriod>, a: Reference, b: Reference)
    requires forall i :: 0 <= i < |ps| ==> Converter.Undefined !in ps[i].tagEntries
    ensures RelationshipBetween(ps, a, b).Success?
  {
    forall i, ref: Reference | 0 <= i < |ps|
      ensures Present(ps[i].tagEntries, ref).Success?
    {
      PresentDefined(ps[i].tagEntries, ref);
    }
    forall x: bool, y: bool
      ensures FilterPeriods(ps, Both(a, x, b, y)).Success?
    {
      forall i | 0 <= i < |ps|
        ensures Every(Both(a, x, b, y), ps[i]).Success?
      {
        var s := Both(a, x, b, y);
        assert s[1..] == [ReferenceState(b, y)];
        assert s[1..][1..] == [];
      }
    }
  }

  /** NaN-propagating subtraction and absolute value. */
  function Sub(x: Option<real>, y: Option<real>): (r: Option<real>)
    ensures r.Some? <==> x.Some? && y.Some?
    ensures r.Some? ==> r.value + y.value == x.value
  {
    if x.Some? && y.Some? then Some(x.value - y.value) else None
  }

  function Abs(x: Option<real>): (r: Option<real>)
    ensures r.Some? <==> x.Some?
    ensures r.Some? ==> r.value >= 0.0 && (r.value == x.value || r.value == -x.value)
  {
    if x.None? then None else if x.value < 0.0 then Some(-x.value) else x
  }

  datatype Diffs = Diffs(aY: Option<real>, aN: Option<real>, bY: Option<real>, bN: Option<real>)

  datatype DiffsInDiffs = DiffsInDiffs(a: Option<real>, b: Option<real>)

  /** `diffsWhen`: the effect of B with A present (aY) and absent (aN), and the
      effect of A with B present (bY) and absent (bN). */
  function DiffsWhen(t: RelationshipStats): (d: Diffs)
    ensures d.aY == Sub(t.aYbY.averageMood, t.aYbN.averageMood)
    ensures d.aN == Sub(t.aNbY.averageMood, t.aNbN.averageMood)
    ensures d.bY == Sub(t.aYbY.averageMood, t.aNbY.averageMood)
    ensures d.bN == Sub(t.aYbN.averageMood, t.aNbN.averageMood)
  {
    Diffs(
      Sub(t.aYbY.averageMood, t.aYbN.averageMood),
      Sub(t.aNbY.averageMood, t.aNbN.averageMood),
      Sub(t.aYbY.averageMood, t.aNbY.averageMood),
      Sub(t.aYbN.averageMood, t.aNbN.averageMood))
  }

  /** `diffsInDiffs`: how much the one reference's effect changes with the
      other. */
  function DiffsInDiffsOf(t: RelationshipStats): (r: DiffsInDiffs)
    ensures r.a.Some? ==> r.a.value >= 0.0
    ensures r.b.Some? ==> r.b.value >= 0.0
  {
    var d := DiffsWhen(t);
    DiffsInDiffs(Abs(Sub(d.aN, d.aY)), Abs(Sub(d.bN, d.bY)))
  }

  /** Both contrasts are defined exactly when all four cell means are, and they
      are then equal: each is the absolute interaction term
      |yes/yes - yes/no - no/yes + no/no|. */
  lemma DiffsInDiffsSymmetric(t: RelationshipStats)
    ensures var r := DiffsInDiffsOf(t);
      && (r.a.Some? <==> t.aYbY.averageMood.Some? && t.aYbN.averageMood.Some?
                         && t.aNbY.averageMood.Some? && t.aNbN.averageMood.Some?)
      && r.a == r.b
      && (r.a.Some? ==>
            var i := t.aYbY.averageMood.value - t.aYbN.averageMood.value
                     - t.aNbY.averageMood.value + t.aNbN.averageMood.value;
            r.a.value == i || r.a.value == -i)
  {
  }

  /** Two periods, one tagged A and B with mood 4.0 and one tagged A alone
      with mood 2.0: A-and-B holds once at 4.0, A-without-B once at 2.0, and
      the two cells without A are empty with no mean. */
  lemma RelationshipScenario(p1: GroupedPeriod, p2: GroupedPeriod, tagA: Converter.Tag, tagB: Converter.Tag)
    requires tagA.tagName != tagB.tagName
    requires p1.tagEntries == [Converter.Defined(1, tagA), Converter.Defined(2, tagB)]
    requires p1.moodEntries == [Converter.Mood(None, 4.0)]
    requires p2.tagEntries == [Converter.Defined(1, tagA)]
    requires p2.moodEntries == [Converter.Mood(None, 2.0)]
    ensures
      var r := RelationshipBetween([p1, p2], Reference(tagA.tagName, TagReference), Reference(tagB.tagName, TagReference));
      && r.Success?
      && r.value.aYbY.count == 1 && r.value.aYbY.averageMood == Some(4.0)
      && r.value.aYbN.count == 1 && r.value.aYbN.averageMood == Some(2.0)
      && r.value.aNbY.count == 0 && r.value.aNbY.averageMood == None
      && r.value.aNbN.count == 0 && r.value.aNbN.averageMood == None
  {
    var ps := [p1, p2];
    var a := Reference(tagA.tagName, TagReference);
    var b := Reference(tagB.tagName, TagReference);
    RelationshipDefined(ps, a, b);
    RelationshipPartition(ps, a, b);
    assert Matches(p1.tagEntries[0], a) && Matches(p1.tagEntries[1], b);
    assert Matches(p2.tagEntries[0], a) && !Matches(p2.tagEntries[0], b);
    ScenarioCells(p1, p2, a, b);
    MeanOfOne(p1, 4.0);
    MeanOfOne(p2, 2.0);
  }

  lemma ScenarioCells(p1: GroupedPeriod, p2: GroupedPeriod, a: Reference, b: Reference)
    requires Has(p1, a) && Has(p1, b) && Has(p2, a) && !Has(p2, b)
    ensures Cell([p1, p2], a, true, b, true) == [p1]
    ensures Cell([p1, p2], a, true, b, false) == [p2]
    ensures Cell([p1, p2], a, false, b, true) == []
    ensures Cell([p1, p2], a, false, b, false) == []
  {
    var ps := [p1, p2];
    assert ps[1..] == [p2];
    assert ps[1..][1..] == [];
  }

  lemma MeanOfOne(p: GroupedPeriod, v: real)
    requires |p.moodEntries| == 1 && p.moodEntries[0].value == v
    ensures Aggregates.Mean(Aggregates.Averages([p])) == Some(v)
  {
    assert Aggregates.MoodValues(p) == [v];
    assert Seqs.SumReal([v]) == v;
    assert Aggregates.Averages([p]) == [Some(v)];
    assert Seqs.SumOpt([Some(v)]) == Some(v);
  }
}
