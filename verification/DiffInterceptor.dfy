/** The method cache of diff.go. */
module DiffInterceptor {
  // Each load or store of a shared sync.Map is one atomic step, and the steps of any
  // number of concurrent requests interleave freely.

  /** As much of a Go type as reflection is asked for. */
  datatype GoType =
    | StructOf(name: string, fields: map<string, GoType>)
    | PointerTo(elem: GoType)
    | DiffDataMap
    | Named(name: string)

  /** Reflection looks through one pointer, and panics unless it then finds a struct. */
  predicate IsStruct(t: GoType) {
    (if t.PointerTo? then t.elem else t).StructOf?
  }

  predicate HasDiff(t: GoType) {
    var elem := if t.PointerTo? then t.elem else t;
    elem.StructOf? && "DiffUserData" in elem.fields && elem.fields["DiffUserData"] == DiffDataMap
  }

  /** The type is a struct with these fields, or a pointer to one. */
  ghost predicate Fields(t: GoType, fields: map<string, GoType>) {
    exists name :: t == StructOf(name, fields) || t == PointerTo(StructOf(name, fields))
  }

  /** What the laws below say of a response: among its fields is DiffUserData, of the map type. */
  ghost predicate CarriesDiff(t: GoType) {
    exists fields :: Fields(t, fields) && ("DiffUserData", DiffDataMap) in fields.Items
  }

  lemma HasDiffIs(t: GoType)
    ensures HasDiff(t) <==> CarriesDiff(t)
    ensures IsStruct(t) <==> exists fields :: Fields(t, fields)
  {
    var elem := if t.PointerTo? then t.elem else t;
    if elem.StructOf? {
      assert t == StructOf(elem.name, elem.fields) || t == PointerTo(StructOf(elem.name, elem.fields));
      assert Fields(t, elem.fields);
      assert forall fields :: Fields(t, fields) ==> fields == elem.fields;
    }
  }

  /** A generated response, a pointer to a struct, against two pointers, another field type and no field. */
  lemma CarryingIsByField(name: string, other: GoType)
    requires other != DiffDataMap
    ensures
      var response := StructOf(name, map["DiffUserData" := DiffDataMap]);
      CarriesDiff(response) && CarriesDiff(PointerTo(response)) && !CarriesDiff(PointerTo(PointerTo(response))) &&
      !CarriesDiff(PointerTo(StructOf(name, map["DiffUserData" := other]))) &&
      !CarriesDiff(PointerTo(StructOf(name, map[]))) && !CarriesDiff(DiffDataMap)
  {
    var response := StructOf(name, map["DiffUserData" := DiffDataMap]);
    HasDiffIs(response);
    HasDiffIs(PointerTo(response));
    HasDiffIs(PointerTo(PointerTo(response)));
    HasDiffIs(PointerTo(StructOf(name, map["DiffUserData" := other])));
    HasDiffIs(PointerTo(StructOf(name, map[])));
    HasDiffIs(DiffDataMap);
  }

  /** What a handler gives back: an error, no response, or a response of some type. */
  datatype Result = Failed | Empty | Responded(response: GoType)

  /** The methods on the skip list, and the types of response each method's handler may return. */
  datatype Handlers = Handlers(skipped: set<string>, mayReturn: string -> set<GoType>)

  predicate CanReturn(h: Handlers, name: string, result: Result) {
    result.Responded? ==> result.response in h.mayReturn(name)
  }

  /** How a request ended: by one of the early exits, without a response, or with its response inspected. */
  datatype Path = Skipped | Fast | Unidentified | Unanswered | Inspected(verdict: bool)

  /** Where a request stands. */
  datatype Stage =
    | Begin
    | LoadVerdict
    | Identify
    | Handle
    | Inspect(response: GoType)
    | StoreField(response: GoType, verdict: bool)
    | Recheck(response: GoType, verdict: bool)
    | FirstStore(response: GoType, verdict: bool)
    | SecondStore(response: GoType, verdict: bool)
    | Bare(path: Path)
    | Done(path: Path, result: Result)
    | Panicked
    | Unreflected

  datatype Request = Request(name: string, stage: Stage)

  /** The three shared maps. */
  datatype Shared = Shared(known: set<string>, verdicts: map<string, bool>, fields: map<GoType, bool>)

  /** The shared maps, and every request so far. */
  datatype State = State(shared: Shared, requests: seq<Request>)

  const INITIAL := State(Shared({}, map[], map[]), [])

  /** The order of the two stores that publish a method; the code stores the verdict first. */
  datatype Order = VerdictFirst | MarkFirst

  function Store(m: Shared, name: string, verdict: bool, theVerdict: bool): Shared {
    if theVerdict then m.(verdicts := m.verdicts[name := verdict]) else m.(known := m.known + {name})
  }

  /** What one step of a request leaves in the shared maps. */
  function Write(order: Order, m: Shared, name: string, stage: Stage): Shared {
    match stage
    case StoreField(t, verdict) => m.(fields := m.fields[t := verdict])
    case FirstStore(t, verdict) => Store(m, name, verdict, order == VerdictFirst)
    case SecondStore(t, verdict) => Store(m, name, verdict, order == MarkFirst)
    case _ => m
  }

  /** Where one step takes a request. */
  function Move(h: Handlers, m: Shared, name: string, stage: Stage, identified: bool, result: Result): Stage {
    match stage
    case Begin => if name in h.skipped then Bare(Skipped) else if name in m.known then LoadVerdict else Identify
    case LoadVerdict =>
      if name !in m.verdicts then Panicked else if m.verdicts[name] then Identify else Bare(Fast)
    case Identify => if identified then Handle else Bare(Unidentified)
    case Handle => if result.Responded? then Inspect(result.response) else Done(Unanswered, result)
    case Inspect(t) =>
      if t in m.fields then Recheck(t, m.fields[t])
      else if IsStruct(t) then StoreField(t, HasDiff(t)) else Unreflected
    case StoreField(t, verdict) => Recheck(t, verdict)
    case Recheck(t, verdict) =>
      if name in m.known then Done(Inspected(verdict), Responded(t)) else FirstStore(t, verdict)
    case FirstStore(t, verdict) => SecondStore(t, verdict)
    case SecondStore(t, verdict) => Done(Inspected(verdict), Responded(t))
    case Bare(path) => Done(path, result)
    case Done(_, _) => stage
    case Panicked => stage
    case Unreflected => stage
  }

  /** A request arrives, or a request takes its next step. */
  datatype Event = Arrive(name: string) | Advance(index: nat, identified: bool, result: Result)

  predicate Enabled(h: Handlers, s: State, e: Event) {
    e.Arrive? || (e.index < |s.requests| && CanReturn(h, s.requests[e.index].name, e.result))
  }

  function Next(h: Handlers, order: Order, s: State, e: Event): State {
    if !Enabled(h, s, e) then s
    else if e.Arrive? then s.(requests := s.requests + [Request(e.name, Begin)])
    else
      var r := s.requests[e.index];
      State(Write(order, s.shared, r.name, r.stage),
            s.requests[e.index := Request(r.name, Move(h, s.shared, r.name, r.stage, e.identified, e.result))])
  }

  /** The state after a run. */
  function After(h: Handlers, order: Order, run: seq<Event>): State {
    if run == [] then INITIAL else Next(h, order, After(h, order, run[..|run| - 1]), run[|run| - 1])
  }

  // ---------------------------------------------------------------------------
  // The invariant of every run
  // ---------------------------------------------------------------------------

  /** Some response the method can return has this verdict. */
  ghost predicate Possible(h: Handlers, name: string, verdict: bool) {
    exists t :: t in h.mayReturn(name) && IsStruct(t) && HasDiff(t) == verdict
  }

  ghost predicate Judged(h: Handlers, name: string, t: GoType, verdict: bool) {
    t in h.mayReturn(name) && IsStruct(t) && verdict == HasDiff(t) && name !in h.skipped
  }

  /** A request on the fast path is for a method that can answer without a diff. */
  ghost predicate FastOk(h: Handlers, name: string, path: Path) {
    path == Fast ==> name !in h.skipped && Possible(h, name, false)
  }

  ghost predicate StageOk(h: Handlers, m: Shared, name: string, stage: Stage) {
    match stage
    case Begin => true
    case LoadVerdict => name in m.known && name !in h.skipped
    case Identify => name !in h.skipped
    case Handle => name !in h.skipped
    case Inspect(t) => t in h.mayReturn(name) && name !in h.skipped
    case StoreField(t, verdict) => Judged(h, name, t, verdict)
    case Recheck(t, verdict) => Judged(h, name, t, verdict)
    case FirstStore(t, verdict) => Judged(h, name, t, verdict)
    case SecondStore(t, verdict) => Judged(h, name, t, verdict) && name in m.verdicts
    case Bare(path) => !path.Inspected? && FastOk(h, name, path) && (path == Skipped <==> name in h.skipped)
    case Done(path, result) =>
      CanReturn(h, name, result) && FastOk(h, name, path) &&
      (path == Skipped <==> name in h.skipped) &&
      (path.Inspected? ==> result.Responded? && path.verdict == HasDiff(result.response))
    case Panicked => false
    case Unreflected => name !in h.skipped && exists t :: t in h.mayReturn(name) && !IsStruct(t)
  }

  /** A known method has a verdict, and each verdict is that of a response it can return. */
  ghost predicate SharedOk(h: Handlers, m: Shared) {
    m.known <= m.verdicts.Keys &&
    (forall t :: t in m.fields ==> IsStruct(t) && m.fields[t] == HasDiff(t)) &&
    (forall name :: name in m.verdicts ==> Possible(h, name, m.verdicts[name]))
  }

  ghost predicate Invariant(h: Handlers, s: State) {
    SharedOk(h, s.shared) &&
    forall i :: 0 <= i < |s.requests| ==> StageOk(h, s.shared, s.requests[i].name, s.requests[i].stage)
  }

  ghost predicate Grew(m: Shared, n: Shared) {
    m.known <= n.known && m.verdicts.Keys <= n.verdicts.Keys
  }

  lemma WriteKeepsShared(h: Handlers, m: Shared, name: string, stage: Stage)
    requires SharedOk(h, m) && StageOk(h, m, name, stage)
    ensures SharedOk(h, Write(VerdictFirst, m, name, stage)) && Grew(m, Write(VerdictFirst, m, name, stage))
  {
    if stage.FirstStore? {
      assert Possible(h, name, stage.verdict);
    }
  }

  lemma MoveKeepsStage(h: Handlers, m: Shared, name: string, stage: Stage, identified: bool, result: Result)
    requires SharedOk(h, m) && StageOk(h, m, name, stage) && CanReturn(h, name, result)
    ensures StageOk(h, Write(VerdictFirst, m, name, stage), name, Move(h, m, name, stage, identified, result))
  {
  }

  lemma StepKeepsInvariant(h: Handlers, s: State, e: Event)
    requires Invariant(h, s)
    ensures Invariant(h, Next(h, VerdictFirst, s, e)) && Grew(s.shared, Next(h, VerdictFirst, s, e).shared)
  {
    if e.Advance? && Enabled(h, s, e) {
      var r := s.requests[e.index];
      WriteKeepsShared(h, s.shared, r.name, r.stage);
      MoveKeepsStage(h, s.shared, r.name, r.stage, e.identified, e.result);
    }
  }

  /** Every run of every number of requests keeps the invariant. */
  lemma {:induction false} EveryRunKeepsInvariant(h: Handlers, run: seq<Event>)
    ensures Invariant(h, After(h, VerdictFirst, run))
  {
    if run != [] {
      EveryRunKeepsInvariant(h, run[..|run| - 1]);
      StepKeepsInvariant(h, After(h, VerdictFirst, run[..|run| - 1]), run[|run| - 1]);
    }
  }

  // ---------------------------------------------------------------------------
  // Safety over whole runs
  // ---------------------------------------------------------------------------

  ghost predicate NobodyPanicked(s: State) {
    forall r :: r in s.requests ==> !r.stage.Panicked?
  }

  /** No request that took the fast path got a response that carries a diff. */
  ghost predicate FastIsDiffless(s: State) {
    forall r :: r in s.requests && r.stage.Done? && r.stage.path == Fast && r.stage.result.Responded? ==>
      !CarriesDiff(r.stage.result.response)
  }

  /** The method may return a response of the type, a struct or a pointer to one. */
  ghost predicate MayAnswer(h: Handlers, name: string, t: GoType) {
    t in h.mayReturn(name) && exists fields :: Fields(t, fields)
  }

  /** A method's responses agree on whether they carry a diff, as with one response type a method. */
  ghost predicate Uniform(h: Handlers) {
    forall name, t, u :: name !in h.skipped && MayAnswer(h, name, t) && MayAnswer(h, name, u) ==>
      (CarriesDiff(t) <==> CarriesDiff(u))
  }

  lemma {:induction false} Extended(h: Handlers, order: Order, run: seq<Event>, e: Event)
    ensures After(h, order, run + [e]) == Next(h, order, After(h, order, run), e)
  {
    assert (run + [e])[..|run|] == run;
  }

  /** The stages of the first request for a method, as far as between its two stores. */
  function FirstVisit(t: GoType): seq<Stage> {
    var verdict := HasDiff(t);
    [Begin, Identify, Handle, Inspect(t), StoreField(t, verdict), Recheck(t, verdict), FirstStore(t, verdict),
     SecondStore(t, verdict)]
  }

  /** The shared maps along those stages. */
  function FirstWrites(order: Order, name: string, t: GoType, k: nat): Shared {
    var empty := Shared({}, map[], map[]);
    var seen := Shared({}, map[], map[t := HasDiff(t)]);
    if k < 5 then empty else if k < 7 then seen else Store(seen, name, HasDiff(t), order == VerdictFirst)
  }

  lemma FirstVisitStep(h: Handlers, order: Order, name: string, t: GoType, k: nat)
    requires name !in h.skipped && t in h.mayReturn(name) && IsStruct(t) && k < 7
    ensures var m := FirstWrites(order, name, t, k);
      Write(order, m, name, FirstVisit(t)[k]) == FirstWrites(order, name, t, k + 1) &&
      Move(h, m, name, FirstVisit(t)[k], true, Responded(t)) == FirstVisit(t)[k + 1]
  {
  }

  /** A run of one request alone that ends between its two stores. */
  function Solo(name: string, t: GoType, steps: nat): seq<Event> {
    if steps == 0 then [Arrive(name)] else Solo(name, t, steps - 1) + [Advance(0, true, Responded(t))]
  }

  lemma {:induction false} SoloReaches(h: Handlers, order: Order, name: string, t: GoType, steps: nat)
    requires name !in h.skipped && t in h.mayReturn(name) && IsStruct(t) && steps < 8
    ensures After(h, order, Solo(name, t, steps)) ==
      State(FirstWrites(order, name, t, steps), [Request(name, FirstVisit(t)[steps])])
  {
    if steps == 0 {
      Extended(h, order, [], Arrive(name));
      assert Solo(name, t, 0) == [] + [Arrive(name)];
    } else {
      SoloReaches(h, order, name, t, steps - 1);
      Extended(h, order, Solo(name, t, steps - 1), Advance(0, true, Responded(t)));
      FirstVisitStep(h, order, name, t, steps - 1);
    }
  }

  /** A run of one request that stops between its two stores, and the maps it leaves. */
  lemma BetweenStores(h: Handlers, order: Order, name: string, t: GoType) returns (run: seq<Event>)
    requires name !in h.skipped && t in h.mayReturn(name) && IsStruct(t)
    ensures var s := After(h, order, run);
      s.requests == [Request(name, SecondStore(t, HasDiff(t)))] &&
      s.shared.known == (if order == VerdictFirst then {} else {name}) &&
      s.shared.verdicts == if order == VerdictFirst then map[name := HasDiff(t)] else map[]
  {
    SoloReaches(h, order, name, t, 7);
    run := Solo(name, t, 7);
  }

  /** A later request for a known method gets as far as reading its verdict. */
  lemma Latecomer(h: Handlers, order: Order, run: seq<Event>, name: string) returns (longer: seq<Event>)
    requires name !in h.skipped && name in After(h, order, run).shared.known
    ensures var s, t := After(h, order, run), After(h, order, longer);
      t == s.(requests := s.requests + [Request(name, LoadVerdict)])
  {
    var i := |After(h, order, run).requests|;
    Extended(h, order, run, Arrive(name));
    Extended(h, order, run + [Arrive(name)], Advance(i, true, Failed));
    longer := run + [Arrive(name)] + [Advance(i, true, Failed)];
  }

  /**
   * The type assertion on the cached verdict is safe in every run exactly because
   * the verdict is stored before the mark: with the stores swapped, a request that
   * comes between them fails it.
   */
  lemma AssertionSafeIffVerdictFirst(h: Handlers, order: Order, name: string, t: GoType)
    requires name !in h.skipped && MayAnswer(h, name, t)
    ensures (forall run :: NobodyPanicked(After(h, order, run))) <==> order == VerdictFirst
  {
    if order == VerdictFirst {
      forall run ensures NobodyPanicked(After(h, order, run)) {
        EveryRunKeepsInvariant(h, run);
      }
    } else {
      HasDiffIs(t);
      var run := BetweenStores(h, order, name, t);
      run := Latecomer(h, order, run, name);
      Extended(h, order, run, Advance(1, true, Failed));
      var s := After(h, order, run + [Advance(1, true, Failed)]);
      assert s.requests[1] in s.requests && s.requests[1].stage.Panicked?;
      assert !NobodyPanicked(s);
    }
  }

  /**
   * The fast path only ever skips responses without a diff exactly when every
   * method is consistent about carrying one, as a fixed response type makes it.
   */
  lemma FastPathSoundIffUniform(h: Handlers)
    ensures (forall run :: FastIsDiffless(After(h, VerdictFirst, run))) <==> Uniform(h)
  {
    if Uniform(h) {
      forall run ensures FastIsDiffless(After(h, VerdictFirst, run)) {
        EveryRunKeepsInvariant(h, run);
        FastMeansDiffless(h, After(h, VerdictFirst, run));
      }
    } else {
      var name, t, u :| name !in h.skipped && MayAnswer(h, name, t) && MayAnswer(h, name, u) &&
        CarriesDiff(t) && !CarriesDiff(u);
      HasDiffIs(u);
      FastPathMisses(h, name, u, t);
    }
  }

  lemma FastMeansDiffless(h: Handlers, s: State)
    requires Invariant(h, s) && Uniform(h)
    ensures FastIsDiffless(s)
  {
    forall i | 0 <= i < |s.requests| && s.requests[i].stage.Done? && s.requests[i].stage.path == Fast &&
      s.requests[i].stage.result.Responded?
      ensures !CarriesDiff(s.requests[i].stage.result.response)
    {
      var name, u := s.requests[i].name, s.requests[i].stage.result.response;
      assert StageOk(h, s.shared, name, s.requests[i].stage);
      var t :| t in h.mayReturn(name) && IsStruct(t) && !HasDiff(t);
      HasDiffIs(t);
      HasDiffIs(u);
      assert MayAnswer(h, name, t) && (CarriesDiff(u) ==> MayAnswer(h, name, u));
    }
  }

  const PLAIN_RESPONSE := PointerTo(StructOf("Response", map[]))
  const DIFF_RESPONSE := PointerTo(StructOf("Response", map["DiffUserData" := DiffDataMap]))

  const MIXED_HANDLERS := Handlers({}, _ => {PLAIN_RESPONSE, DIFF_RESPONSE})

  /** Methods that answer with or without a diff: some run skips a diff. */
  lemma MixedMethodMissesDiff()
    ensures exists run :: !FastIsDiffless(After(MIXED_HANDLERS, VerdictFirst, run))
  {
    CarryingIsByField("Response", Named("int"));
    FastPathMisses(MIXED_HANDLERS, "", PLAIN_RESPONSE, DIFF_RESPONSE);
  }

  /** A run of one request, at the end of which the method is known to answer without a diff. */
  lemma KnownPlain(h: Handlers, name: string, plain: GoType) returns (run: seq<Event>)
    requires name !in h.skipped && plain in h.mayReturn(name) && IsStruct(plain) && !HasDiff(plain)
    ensures var s := After(h, VerdictFirst, run);
      |s.requests| == 1 && s.shared.known == {name} && s.shared.verdicts == map[name := false]
  {
    run := BetweenStores(h, VerdictFirst, name, plain);
    Extended(h, VerdictFirst, run, Advance(0, true, Empty));
    run := run + [Advance(0, true, Empty)];
  }

  /** A method seen without a diff first, then answering with one on the fast path. */
  lemma FastPathMisses(h: Handlers, name: string, plain: GoType, diff: GoType)
    requires name !in h.skipped && plain in h.mayReturn(name) && diff in h.mayReturn(name)
    requires IsStruct(plain) && !CarriesDiff(plain) && CarriesDiff(diff)
    ensures exists run :: !FastIsDiffless(After(h, VerdictFirst, run))
  {
    HasDiffIs(plain);
    var run := KnownPlain(h, name, plain);
    run := Latecomer(h, VerdictFirst, run, name);
    var late := Advance(1, true, Responded(diff));
    Extended(h, VerdictFirst, run, late);
    Extended(h, VerdictFirst, run + [late], late);
    var s := After(h, VerdictFirst, run + [late] + [late]);
    assert s.requests[1] in s.requests && s.requests[1].stage == Done(Fast, Responded(diff));
    assert !FastIsDiffless(s);
  }

  /** An inspected response is always judged by its own fields, in every run. */
  lemma InspectedByItsType(h: Handlers, run: seq<Event>, i: nat)
    requires i < |After(h, VerdictFirst, run).requests|
    ensures var stage := After(h, VerdictFirst, run).requests[i].stage;
      stage.Done? && stage.path.Inspected? ==>
        stage.result.Responded? && (stage.path.verdict <==> CarriesDiff(stage.result.response))
  {
    EveryRunKeepsInvariant(h, run);
    var s := After(h, VerdictFirst, run);
    assert StageOk(h, s.shared, s.requests[i].name, s.requests[i].stage);
    var stage := s.requests[i].stage;
    if stage.Done? && stage.path.Inspected? { HasDiffIs(stage.result.response); }
  }

  /**
   * A method whose responses are all pointers to structs with the field: no
   * request for it is ever on the fast path, and every response inspected is
   * found to carry a diff.
   */
  lemma DiffMethodIsInspected(h: Handlers, run: seq<Event>, i: nat)
    requires i < |After(h, VerdictFirst, run).requests|
    requires forall t :: t in h.mayReturn(After(h, VerdictFirst, run).requests[i].name) ==>
      t.PointerTo? && t.elem.StructOf? && ("DiffUserData", DiffDataMap) in t.elem.fields.Items
    ensures var stage := After(h, VerdictFirst, run).requests[i].stage;
      stage != Bare(Fast) && !stage.Unreflected? &&
      (stage.Done? ==> stage.path != Fast && (stage.path.Inspected? ==> stage.path.verdict))
  {
    EveryRunKeepsInvariant(h, run);
    var s := After(h, VerdictFirst, run);
    var name := s.requests[i].name;
    assert StageOk(h, s.shared, name, s.requests[i].stage);
    forall t | t in h.mayReturn(name) ensures HasDiff(t) {
      assert Fields(t, t.elem.fields);
      HasDiffIs(t);
    }
  }

  /** A method none of whose responses has the field, once known: the next request reads that and skips inspection. */
  lemma DifflessMethodIsFast(h: Handlers, run: seq<Event>, i: nat, identified: bool, result: Result)
    requires
      var s := After(h, VerdictFirst, run);
      i < |s.requests| && s.requests[i].stage == LoadVerdict && CanReturn(h, s.requests[i].name, result) &&
      forall t, fields :: t in h.mayReturn(s.requests[i].name) && Fields(t, fields) ==> "DiffUserData" !in fields
    ensures After(h, VerdictFirst, run + [Advance(i, identified, result)]).requests[i].stage == Bare(Fast)
  {
    EveryRunKeepsInvariant(h, run);
    var s := After(h, VerdictFirst, run);
    Extended(h, VerdictFirst, run, Advance(i, identified, result));
    var name := s.requests[i].name;
    assert StageOk(h, s.shared, name, s.requests[i].stage);
    forall t | t in h.mayReturn(name) ensures !HasDiff(t) {
      HasDiffIs(t);
    }
  }

  /** A request is answered without a look at it exactly when its method is on the skip list. */
  lemma SkippedIffListed(h: Handlers, run: seq<Event>, i: nat)
    requires i < |After(h, VerdictFirst, run).requests| && After(h, VerdictFirst, run).requests[i].stage.Done?
    ensures var r := After(h, VerdictFirst, run).requests[i];
      r.stage.path == Skipped <==> r.name in h.skipped
  {
    EveryRunKeepsInvariant(h, run);
    var s := After(h, VerdictFirst, run);
    assert StageOk(h, s.shared, s.requests[i].name, s.requests[i].stage);
  }

  ghost predicate NobodyUnreflected(s: State) {
    forall i :: 0 <= i < |s.requests| ==> s.requests[i].stage != Unreflected
  }

  /** Reflection panics in no run exactly when every response inspected is a struct or one pointer to a struct. */
  lemma ReflectionSafeIffStructs(h: Handlers)
    ensures (forall run :: NobodyUnreflected(After(h, VerdictFirst, run))) <==>
      forall name, t :: name !in h.skipped && t in h.mayReturn(name) ==> MayAnswer(h, name, t)
  {
    if forall name, t :: name !in h.skipped && t in h.mayReturn(name) ==> MayAnswer(h, name, t) {
      forall run ensures NobodyUnreflected(After(h, VerdictFirst, run)) {
        EveryRunKeepsInvariant(h, run);
        var s := After(h, VerdictFirst, run);
        forall i | 0 <= i < |s.requests| ensures s.requests[i].stage != Unreflected {
          assert StageOk(h, s.shared, s.requests[i].name, s.requests[i].stage);
          forall t | t in h.mayReturn(s.requests[i].name) { HasDiffIs(t); }
        }
      }
    } else {
      var name, t :| name !in h.skipped && t in h.mayReturn(name) && !MayAnswer(h, name, t);
      HasDiffIs(t);
      UnreflectedRun(h, name, t);
    }
  }

  /** One step of a request that is alone and writes nothing. */
  lemma LoneStep(h: Handlers, run: seq<Event>, name: string, t: GoType, stage: Stage)
    requires After(h, VerdictFirst, run) == State(Shared({}, map[], map[]), [Request(name, stage)])
    requires t in h.mayReturn(name) && (stage == Begin || stage == Identify || stage == Handle || stage == Inspect(t))
    ensures After(h, VerdictFirst, run + [Advance(0, true, Responded(t))]) ==
      State(Shared({}, map[], map[]),
            [Request(name, Move(h, Shared({}, map[], map[]), name, stage, true, Responded(t)))])
  {
    Extended(h, VerdictFirst, run, Advance(0, true, Responded(t)));
  }

  /** A run of one request that ends where it looks at the response. */
  lemma LoneInspection(h: Handlers, name: string, t: GoType) returns (run: seq<Event>)
    requires name !in h.skipped && t in h.mayReturn(name)
    ensures After(h, VerdictFirst, run) == State(Shared({}, map[], map[]), [Request(name, Inspect(t))])
  {
    run := LoneArrival(h, name);
    LoneStep(h, run, name, t, Begin);
    run := run + [Advance(0, true, Responded(t))];
    LoneStep(h, run, name, t, Identify);
    run := run + [Advance(0, true, Responded(t))];
    LoneStep(h, run, name, t, Handle);
    run := run + [Advance(0, true, Responded(t))];
  }

  lemma LoneArrival(h: Handlers, name: string) returns (run: seq<Event>)
    ensures After(h, VerdictFirst, run) == State(Shared({}, map[], map[]), [Request(name, Begin)])
  {
    run := [] + [Arrive(name)];
    Extended(h, VerdictFirst, [], Arrive(name));
  }

  /** A first request whose response is no struct. */
  lemma UnreflectedRun(h: Handlers, name: string, t: GoType)
    requires name !in h.skipped && t in h.mayReturn(name) && !IsStruct(t)
    ensures exists run :: !NobodyUnreflected(After(h, VerdictFirst, run))
  {
    var run := LoneInspection(h, name, t);
    LoneStep(h, run, name, t, Inspect(t));
    var s := After(h, VerdictFirst, run + [Advance(0, true, Responded(t))]);
    assert s.requests[0].stage == Unreflected;
    assert !NobodyUnreflected(s);
  }

  lemma OneVerdict(h: Handlers, name: string, a: bool, b: bool)
    requires Uniform(h) && name !in h.skipped && Possible(h, name, a) && Possible(h, name, b)
    ensures a == b
  {
    var t :| t in h.mayReturn(name) && IsStruct(t) && HasDiff(t) == a;
    var u :| u in h.mayReturn(name) && IsStruct(u) && HasDiff(u) == b;
    HasDiffIs(t);
    HasDiffIs(u);
    assert MayAnswer(h, name, t) && MayAnswer(h, name, u);
  }

  /** Once a method is known it stays known, and with consistent responses its verdict never changes. */
  lemma {:induction false} KnownIsFinal(h: Handlers, run: seq<Event>, more: seq<Event>, name: string)
    requires Uniform(h) && name !in h.skipped && name in After(h, VerdictFirst, run).shared.known
    ensures
      var early, late := After(h, VerdictFirst, run).shared, After(h, VerdictFirst, run + more).shared;
      name in late.known && name in early.verdicts && name in late.verdicts &&
      late.verdicts[name] == early.verdicts[name]
  {
    EveryRunKeepsInvariant(h, run);
    EveryRunKeepsInvariant(h, run + more);
    if more == [] {
      assert run + more == run;
    } else {
      var e := more[|more| - 1];
      var before := run + more[..|more| - 1];
      KnownIsFinal(h, run, more[..|more| - 1], name);
      assert run + more == before + [e];
      Extended(h, VerdictFirst, before, e);
      EveryRunKeepsInvariant(h, before);
      StepKeepsInvariant(h, After(h, VerdictFirst, before), e);
      OneVerdict(h, name, After(h, VerdictFirst, run).shared.verdicts[name],
                 After(h, VerdictFirst, run + more).shared.verdicts[name]);
    }
  }
}
