/**
 * The zone-history card: one read at a time, asked for by renders, answered
 * late, and never captioned with a selection it was not made for.
 */
module History {
  import opened Basics

  datatype Range = OneHour | OneDay | OneWeek

  function RangeId(r: Range): string {
    match r case OneHour => "1h" case OneDay => "24h" case OneWeek => "7d"
  }

  /** The pair of reads one call makes, for one zone and one range. */
  datatype Read = Read(seqNo: nat, zone: string, range: Range)

  /** What the card shows as points or as sources: nothing yet, or the answer to a read. */
  datatype Shown = Blank | From(read: Read)

  datatype State = State(
    zone: Option<string>, range: Range, key: string, loading: bool, fetchedAt: nat, seqNo: nat,
    points: Shown, sources: Shown, pending: seq<Read>)

  const START := State(None, OneHour, "", false, 0, 0, Blank, Blank, [])

  const FRESH_MS := 10000

  function KeyOf(zone: string, range: Range): string { zone + "|" + RangeId(range) }

  /** The guard a render runs into: no zone, a read already out, or data still fresh. */
  predicate Quiet(s: State, now: nat) {
    || s.zone == None || s.zone == Some("") || s.loading
    || (s.key == KeyOf(s.zone.value, s.range) && s.fetchedAt != 0 && now - s.fetchedAt < FRESH_MS)
  }

  function LoadStep(s: State, now: nat): State {
    if Quiet(s, now) then s
    else s.(loading := true, seqNo := s.seqNo + 1, pending := s.pending + [Read(s.seqNo + 1, s.zone.value, s.range)])
  }

  function RenderStep(s: State, reaches: bool, now: nat): State {
    if reaches then LoadStep(s, now) else s
  }

  function ToggleStep(s: State, zone: string): State {
    if s.zone == Some(zone) then s.(zone := None)
    else s.(zone := Some(zone), key := "", fetchedAt := 0, points := Blank, sources := Blank)
  }

  function RangeStep(s: State, r: Range): State {
    if s.range == r then s else s.(range := r, key := "", fetchedAt := 0)
  }

  /** The answer to a read, before the render it asks for. */
  function AnswerStep(s: State, k: nat, now: nat): State {
    if k >= |s.pending| then s
    else
      var r := s.pending[k];
      var s' := s.(pending := Cut(s.pending, k));
      if r.seqNo != s.seqNo then s'
      else if s.zone != Some(r.zone) || s.range != r.range then s'.(loading := false)
      else s'.(loading := false, fetchedAt := now, key := KeyOf(r.zone, r.range), points := From(r), sources := From(r))
  }

  /**
   * One event. `reaches` says whether the render that follows it gets as far as
   * the card; an overtaken answer asks for no render.
   */
  datatype Event =
    | Toggle(zone: string, reaches: bool, now: nat)
    | SetRange(range: Range, reaches: bool, now: nat)
    | Render(reaches: bool, now: nat)
    | Answer(k: nat, reaches: bool, now: nat)

  function Step(s: State, ev: Event): State {
    match ev
    case Toggle(zone, reaches, now) => RenderStep(ToggleStep(s, zone), reaches, now)
    case SetRange(r, reaches, now) => if s.range == r then s else RenderStep(RangeStep(s, r), reaches, now)
    case Render(reaches, now) => RenderStep(s, reaches, now)
    case Answer(k, reaches, now) =>
      if k < |s.pending| && s.pending[k].seqNo == s.seqNo then RenderStep(AnswerStep(s, k, now), reaches, now)
      else AnswerStep(s, k, now)
  }

  function Run(s: State, evs: seq<Event>): State
    decreases |evs|
  {
    if evs == [] then s else Run(Step(s, evs[0]), evs[1..])
  }

  // ------------------------------------------------------------------ the code

  class HistoryCard {
    var zone: Option<string>
    var range: Range
    var key: string
    var loading: bool
    var fetchedAt: nat
    var seqNo: nat
    var points: Shown
    var sources: Shown
    var pending: seq<Read>

    constructor ()
      ensures Now() == START
    {
      zone, range, key, loading, fetchedAt, seqNo := None, OneHour, "", false, 0, 0;
      points, sources, pending := Blank, Blank, [];
    }

    function Now(): State
      reads this
    {
      State(zone, range, key, loading, fetchedAt, seqNo, points, sources, pending)
    }

    /** Asked for by every render that shows the card. */
    method Load(now: nat)
      modifies this`loading, this`seqNo, this`pending
      ensures Now() == LoadStep(old(Now()), now)
    {
      if zone == None || zone == Some("") || loading { return; }
      var k := zone.value + "|" + RangeId(range);
      if key == k && fetchedAt != 0 && now - fetchedAt < FRESH_MS { return; }
      loading := true;
      seqNo := seqNo + 1;
      pending := pending + [Read(seqNo, zone.value, range)];
    }

    method RenderView(reaches: bool, now: nat)
      modifies this`loading, this`seqNo, this`pending
      ensures Now() == RenderStep(old(Now()), reaches, now)
    {
      if reaches { Load(now); }
    }

    method ToggleZone(z: string, reaches: bool, now: nat)
      modifies this
      ensures Now() == Step(old(Now()), Toggle(z, reaches, now))
    {
      if zone == Some(z) {
        zone := None;
        RenderView(reaches, now);
        return;
      }
      zone, key, fetchedAt := Some(z), "", 0;
      points, sources := Blank, Blank;
      RenderView(reaches, now);
    }

    method ChooseRange(r: Range, reaches: bool, now: nat)
      modifies this
      ensures Now() == Step(old(Now()), SetRange(r, reaches, now))
    {
      if range == r { return; }
      range, key, fetchedAt := r, "", 0;
      RenderView(reaches, now);
    }

    /** A late answer: only the newest read may write, and only for the selection it was made for. */
    method Resolve(k: nat, reaches: bool, now: nat)
      requires k < |pending|
      modifies this
      ensures Now() == Step(old(Now()), Answer(k, reaches, now))
    {
      var r := pending[k];
      pending := pending[..k] + pending[k + 1..];
      if r.seqNo != seqNo { return; }
      loading := false;
      if zone != Some(r.zone) || range != r.range {
        RenderView(reaches, now);
        return;
      }
      fetchedAt, key := now, KeyOf(r.zone, r.range);
      points := From(r);
      sources := From(r);
      RenderView(reaches, now);
    }
  }

  // -------------------------------------------------------------- invariant

  /** Data on show came, points and sources alike, from one read for exactly the zone and range on show. */
  ghost predicate Captioned(s: State) {
    s.zone.Some? && s.fetchedAt != 0 ==>
      && s.points == s.sources && s.points.From?
      && s.points.read.zone == s.zone.value && s.points.read.range == s.range
      && s.key == KeyOf(s.zone.value, s.range)
  }

  /** The guard is up exactly while one read is out, and that read is the newest. */
  ghost predicate OneRead(s: State) {
    if s.loading then |s.pending| == 1 && s.pending[0].seqNo == s.seqNo else s.pending == []
  }

  lemma LoadKeeps(s: State, now: nat)
    requires Captioned(s) && OneRead(s)
    ensures Captioned(LoadStep(s, now)) && OneRead(LoadStep(s, now))
  {
    hide KeyOf;
  }

  lemma StepKeeps(s: State, ev: Event)
    requires Captioned(s) && OneRead(s)
    ensures Captioned(Step(s, ev)) && OneRead(Step(s, ev))
  {
    hide KeyOf, LoadStep;
    match ev
    case Toggle(zone, _, now) => LoadKeeps(ToggleStep(s, zone), now);
    case SetRange(r, _, now) => LoadKeeps(RangeStep(s, r), now);
    case Render(_, now) => LoadKeeps(s, now);
    case Answer(k, _, now) =>
      if k < |s.pending| {
        assert Cut(s.pending, k) == [];
        LoadKeeps(AnswerStep(s, k, now), now);
      }
  }

  lemma {:induction false} RunKeeps(s: State, evs: seq<Event>)
    requires Captioned(s) && OneRead(s)
    ensures Captioned(Run(s, evs)) && OneRead(Run(s, evs))
    decreases |evs|
  {
    hide Captioned, OneRead, Step;
    if evs == [] {
    } else {
      StepKeeps(s, evs[0]);
      RunKeeps(Step(s, evs[0]), evs[1..]);
    }
  }

  /** In every interleaving at most one read is out, and whatever an open zone shows was read for it. */
  lemma CardIsHonest(evs: seq<Event>)
    ensures var s := Run(START, evs);
      && |s.pending| <= 1 && (s.loading <==> |s.pending| == 1)
      && (s.zone.Some? && s.fetchedAt != 0 ==>
            exists r :: s.points == From(r) && s.sources == From(r) && Some(r.zone) == s.zone && r.range == s.range)
  {
    hide Run, KeyOf;
    RunKeeps(START, evs);
  }

  /** So an answer is never overtaken: the test against the newest read always passes. */
  lemma NoAnswerIsOvertaken(evs: seq<Event>, k: nat)
    requires k < |Run(START, evs).pending|
    ensures Run(START, evs).pending[k].seqNo == Run(START, evs).seqNo
    ensures forall now :: !AnswerStep(Run(START, evs), k, now).loading
  {
    hide Run, KeyOf;
    RunKeeps(START, evs);
  }

  // ------------------------------------------------------------- progress

  /** A selection changed while a read is out shows nothing fetched until that read is answered. */
  ghost predicate Awaited(s: State) {
    s.pending != [] && s.zone.Some? && (s.pending[0].zone != s.zone.value || s.pending[0].range != s.range) ==>
      s.fetchedAt == 0
  }

  lemma StepAwaits(s: State, ev: Event)
    requires Captioned(s) && OneRead(s) && Awaited(s)
    ensures Awaited(Step(s, ev))
  {
    hide KeyOf;
    match ev
    case Toggle(_, _, _) =>
    case SetRange(_, _, _) =>
    case Render(_, _) =>
    case Answer(k, _, _) =>
      if k < |s.pending| {
        assert Cut(s.pending, k) == [];
      }
  }

  lemma {:induction false} AlwaysAwaited(s: State, evs: seq<Event>)
    requires Captioned(s) && OneRead(s) && Awaited(s)
    ensures var s' := Run(s, evs); Captioned(s') && OneRead(s') && Awaited(s')
    decreases |evs|
  {
    hide Captioned, OneRead, Awaited, Step;
    if evs == [] {
    } else {
      StepKeeps(s, evs[0]);
      StepAwaits(s, evs[0]);
      AlwaysAwaited(Step(s, evs[0]), evs[1..]);
    }
  }

  /** The read that a selection asks for, if one is made now. */
  function NextRead(s: State): Read
    requires s.zone.Some?
  {
    Read(s.seqNo + 1, s.zone.value, s.range)
  }

  /**
   * A render that reaches the card issues a read, for exactly the zone and
   * range on show, exactly when a zone is open, no read is out, and what is on
   * show is not fetched within the last ten seconds.
   */
  lemma RenderReads(evs: seq<Event>, now: nat)
    ensures var s := Run(START, evs);
      var s' := Step(s, Render(true, now));
      if s.zone.Some? && s.zone.value != "" && s.pending == [] && (s.fetchedAt == 0 || now - s.fetchedAt >= 10000) then
        s' == s.(loading := true, seqNo := s.seqNo + 1, pending := [NextRead(s)])
      else s' == s
  {
    hide Run, KeyOf;
    AlwaysAwaited(START, evs);
  }

  /** A render that does not reach the card asks for nothing. */
  lemma RenderElsewhere(s: State, now: nat)
    ensures Step(s, Render(false, now)) == s
  {}

  /** A click on the open zone closes it and asks for nothing. */
  lemma ClickCloses(s: State, reaches: bool, now: nat)
    requires s.zone.Some?
    ensures Step(s, Toggle(s.zone.value, reaches, now)) == s.(zone := None)
  {}

  /** A click on another zone opens it blank, and reads for it unless a read is still out. */
  lemma ClickOpens(evs: seq<Event>, z: string, now: nat)
    requires Run(START, evs).zone != Some(z)
    ensures var s := Run(START, evs);
      var s' := Step(s, Toggle(z, true, now));
      && s'.zone == Some(z) && s'.range == s.range && s'.fetchedAt == 0 && s'.points == Blank && s'.sources == Blank
      && s'.pending == if s.pending == [] && z != "" then [Read(s.seqNo + 1, z, s.range)] else s.pending
  {
    hide Run, KeyOf;
    AlwaysAwaited(START, evs);
  }

  /** A switch of range drops what was fetched, and reads for the new one unless a read is still out. */
  lemma SwitchReads(evs: seq<Event>, r: Range, now: nat)
    requires Run(START, evs).range != r
    ensures var s := Run(START, evs);
      var s' := Step(s, SetRange(r, true, now));
      && s'.zone == s.zone && s'.range == r && s'.fetchedAt == 0
      && s'.pending == if s.pending == [] && s.zone.Some? && s.zone.value != "" then [Read(s.seqNo + 1, s.zone.value, r)]
                       else s.pending
  {
    hide Run, KeyOf;
    AlwaysAwaited(START, evs);
  }

  /**
   * An answer is shown, points and sources together, if the selection is still
   * the one it was read for; if it has moved on, nothing of the answer is shown
   * and the render it asks for starts the new selection's own read.
   */
  lemma AnswerMoves(evs: seq<Event>, now: nat)
    requires Run(START, evs).pending != [] && now != 0
    ensures var s := Run(START, evs);
      var s', r := Step(s, Answer(0, true, now)), s.pending[0];
      && s'.zone == s.zone && s'.range == s.range
      && if s.zone == Some(r.zone) && s.range == r.range then
           s'.points == From(r) && s'.sources == From(r) && s'.fetchedAt == now && s'.pending == []
         else
           && s'.points == s.points && s'.sources == s.sources && s'.fetchedAt == s.fetchedAt
           && s'.pending == if s.zone.Some? && s.zone.value != "" then [NextRead(s)] else []
  {
    hide Run, KeyOf;
    AlwaysAwaited(START, evs);
    assert Cut(Run(START, evs).pending, 0) == [];
  }

  /** A key names one selection: the freshness test cannot take one zone and range for another. */
  lemma KeyNamesSelection(z1: string, r1: Range, z2: string, r2: Range)
    requires KeyOf(z1, r1) == KeyOf(z2, r2)
    ensures z1 == z2 && r1 == r2
  {
    var k1, k2 := KeyOf(z1, r1), KeyOf(z2, r2);
    var n := |k1|;
    assert k1[n - 1] == RangeId(r1)[|RangeId(r1)| - 1] && k2[n - 1] == RangeId(r2)[|RangeId(r2)| - 1];
    assert k1[n - 2] == RangeId(r1)[|RangeId(r1)| - 2] && k2[n - 2] == RangeId(r2)[|RangeId(r2)| - 2];
    assert z1 == k1[..|z1|] && z2 == k2[..|z2|];
  }
}
