/**
 * One write at a time: the dialogs that pull a zone's lever, the table of zones
 * with a write in flight, and the answers that come back whenever they like.
 */
module Lever {
  import opened Basics

  datatype Zone = Zone(name: string)
  type Id = nat

  /** The closure state of one dialog. */
  datatype Dialog = Dialog(zone: Zone, ending: bool, busy: bool, failed: bool)

  /** A write sent to the brain and not answered yet. */
  datatype Call = Call(zone: Zone, owner: Id)

  /** The one popover on the page: none, a lever dialog's, or some other confirm. */
  datatype Panel = NoPanel | LeverPanel(id: Id) | OtherPanel

  /** How an answer was reported: drawn in the asking panel, or said in a toast. */
  datatype Report = InPanel(id: Id) | Toast(id: Id, ok: bool)

  datatype State = State(
    dialogs: map<Id, Dialog>, inFlight: map<Zone, seq<Id>>, panel: Panel, calls: seq<Call>,
    sent: seq<Zone>, answered: seq<Zone>, reports: seq<Report>, created: nat)

  const START := State(map[], map[], NoPanel, [], [], [], [], 0)

  datatype Event =
    | Open(zone: Zone, ending: bool)
    | OpenOther
    | Dismiss
    | Submit(id: Id)
    | Answer(k: nat, ok: bool)

  function SetBusy(d: map<Id, Dialog>, id: Id, busy: bool): map<Id, Dialog> {
    if id in d then d[id := d[id].(busy := busy)] else d
  }

  function Release(d: map<Id, Dialog>, ids: seq<Id>): map<Id, Dialog>
    decreases |ids|
  {
    if ids == [] then d else Release(SetBusy(d, ids[0], false), ids[1..])
  }

  function SubmitStep(s: State, id: Id): State {
    if id !in s.dialogs || s.dialogs[id].busy then s
    else
      var z := s.dialogs[id].zone;
      var d := s.dialogs[id := s.dialogs[id].(busy := true, failed := false)];
      if z in s.inFlight then s.(dialogs := d, inFlight := s.inFlight[z := s.inFlight[z] + [id]])
      else s.(dialogs := d, inFlight := s.inFlight[z := []], calls := s.calls + [Call(z, id)], sent := s.sent + [z])
  }

  /** The dialogs parked behind a zone's write. */
  function Waiters(inFlight: map<Zone, seq<Id>>, z: Zone): seq<Id> {
    if z in inFlight then inFlight[z] else []
  }

  /** What the asking dialog does with the answer. */
  function FinishStep(s: State, id: Id, ok: bool): State {
    var d := SetBusy(s.dialogs, id, false);
    var mine := s.panel == LeverPanel(id);
    if !ok && mine && id in d then s.(dialogs := d[id := d[id].(failed := true)], reports := s.reports + [InPanel(id)])
    else s.(dialogs := d, panel := if ok && mine then NoPanel else s.panel, reports := s.reports + [Toast(id, ok)])
  }

  function AnswerStep(s: State, k: nat, ok: bool): State {
    if k >= |s.calls| then s
    else
      var c := s.calls[k];
      var waiters := Waiters(s.inFlight, c.zone);
      var s' := FinishStep(s.(inFlight := s.inFlight - {c.zone}, calls := Cut(s.calls, k),
                              answered := s.answered + [c.zone]), c.owner, ok);
      s'.(dialogs := Release(s'.dialogs, waiters))
  }

  function Step(s: State, ev: Event): State {
    match ev
    case Open(zone, ending) =>
      s.(dialogs := s.dialogs[s.created := Dialog(zone, ending, false, false)], panel := LeverPanel(s.created),
         created := s.created + 1)
    case OpenOther => s.(panel := OtherPanel)
    case Dismiss => s.(panel := NoPanel)
    case Submit(id) => SubmitStep(s, id)
    case Answer(k, ok) => AnswerStep(s, k, ok)
  }

  function Run(s: State, evs: seq<Event>): State
    decreases |evs|
  {
    if evs == [] then s else Run(Step(s, evs[0]), evs[1..])
  }

  // -------------------------------------------------------------- invariant

  ghost predicate Owns(calls: seq<Call>, id: Id) {
    exists k :: 0 <= k < |calls| && calls[k].owner == id
  }

  ghost predicate Waits(dialogs: map<Id, Dialog>, inFlight: map<Zone, seq<Id>>, id: Id) {
    id in dialogs && id in Waiters(inFlight, dialogs[id].zone)
  }

  ghost predicate NoRepeats(ids: seq<Id>) {
    forall i, j | 0 <= i < |ids| && 0 <= j < |ids| && ids[i] == ids[j] :: i == j
  }

  ghost predicate Out(calls: seq<Call>, z: Zone) {
    exists k :: 0 <= k < |calls| && calls[k].zone == z
  }

  /** At most one write per zone is out, and the table knows exactly which zones have one. */
  ghost predicate OneWrite(calls: seq<Call>, inFlight: map<Zone, seq<Id>>) {
    && (forall i, j | 0 <= i < |calls| && 0 <= j < |calls| && calls[i].zone == calls[j].zone :: i == j)
    && (forall z :: z in inFlight <==> Out(calls, z))
  }

  /** Owners and waiters are dialogs of the zone, each in one place only. */
  ghost predicate Filed(dialogs: map<Id, Dialog>, calls: seq<Call>, inFlight: map<Zone, seq<Id>>, created: nat) {
    && (forall id | id in dialogs :: id < created)
    && (forall k | 0 <= k < |calls| :: calls[k].owner in dialogs && dialogs[calls[k].owner].zone == calls[k].zone
                                       && calls[k].owner !in Waiters(inFlight, calls[k].zone))
    && (forall z, id | z in inFlight && id in inFlight[z] :: id in dialogs && dialogs[id].zone == z)
    && (forall z | z in inFlight :: NoRepeats(inFlight[z]))
  }

  /** A dialog says Working exactly while it owns or waits on its zone's write. */
  ghost predicate BusyIsPending(dialogs: map<Id, Dialog>, calls: seq<Call>, inFlight: map<Zone, seq<Id>>) {
    forall id | id in dialogs :: dialogs[id].busy <==> Owns(calls, id) || Waits(dialogs, inFlight, id)
  }

  ghost predicate Inv(s: State) {
    && OneWrite(s.calls, s.inFlight)
    && Filed(s.dialogs, s.calls, s.inFlight, s.created)
    && BusyIsPending(s.dialogs, s.calls, s.inFlight)
  }

  lemma StartsGood()
    ensures Inv(START)
  {}

  lemma NotPending(s: State, id: Id)
    requires Inv(s) && id in s.dialogs && !s.dialogs[id].busy
    ensures !Owns(s.calls, id) && !Waits(s.dialogs, s.inFlight, id)
  {
    hide OneWrite, Filed, Owns, Waits;
  }

  // ------------------------------------------------- a second panel parks

  lemma ParkOneWrite(calls: seq<Call>, inFlight: map<Zone, seq<Id>>, z: Zone, ids: seq<Id>)
    requires OneWrite(calls, inFlight) && z in inFlight
    ensures OneWrite(calls, inFlight[z := ids])
  {
    hide Out;
  }

  lemma ParkFiled(s: State, id: Id)
    requires Inv(s) && id in s.dialogs && !s.dialogs[id].busy && s.dialogs[id].zone in s.inFlight
    ensures var s' := SubmitStep(s, id); Filed(s'.dialogs, s'.calls, s'.inFlight, s'.created)
  {
    hide OneWrite, BusyIsPending;
    NotPending(s, id);
    var s' := SubmitStep(s, id);
    forall k | 0 <= k < |s'.calls|
      ensures s'.calls[k].owner in s'.dialogs && s'.dialogs[s'.calls[k].owner].zone == s'.calls[k].zone
              && s'.calls[k].owner !in Waiters(s'.inFlight, s'.calls[k].zone)
    {
      assert s.calls[k].owner != id;
    }
  }

  lemma ParkBusy(s: State, id: Id)
    requires Inv(s) && id in s.dialogs && !s.dialogs[id].busy && s.dialogs[id].zone in s.inFlight
    ensures var s' := SubmitStep(s, id); BusyIsPending(s'.dialogs, s'.calls, s'.inFlight)
  {
    hide OneWrite, Filed, Owns;
    var s' := SubmitStep(s, id);
    forall x | x in s'.dialogs
      ensures s'.dialogs[x].busy <==> Owns(s'.calls, x) || Waits(s'.dialogs, s'.inFlight, x)
    {
      assert s'.dialogs[x].zone == s.dialogs[x].zone;
      assert Waits(s'.dialogs, s'.inFlight, x) <==> Waits(s.dialogs, s.inFlight, x) || x == id;
    }
  }

  // -------------------------------------------------- a first panel sends

  lemma CallsGrow(calls: seq<Call>, c: Call)
    ensures forall x :: Owns(calls + [c], x) <==> Owns(calls, x) || x == c.owner
    ensures forall z :: Out(calls + [c], z) <==> Out(calls, z) || z == c.zone
  {
    var all := calls + [c];
    forall x ensures Owns(all, x) <==> Owns(calls, x) || x == c.owner {
      if x == c.owner { assert all[|calls|].owner == x; }
      if Owns(calls, x) { var k :| 0 <= k < |calls| && calls[k].owner == x; assert all[k].owner == x; }
    }
    forall z ensures Out(all, z) <==> Out(calls, z) || z == c.zone {
      if z == c.zone { assert all[|calls|].zone == z; }
      if Out(calls, z) { var k :| 0 <= k < |calls| && calls[k].zone == z; assert all[k].zone == z; }
    }
  }

  lemma SendOneWrite(calls: seq<Call>, inFlight: map<Zone, seq<Id>>, c: Call)
    requires OneWrite(calls, inFlight) && c.zone !in inFlight
    ensures OneWrite(calls + [c], inFlight[c.zone := []])
  {
    CallsGrow(calls, c);
    assert !Out(calls, c.zone);
    forall i | 0 <= i < |calls| ensures calls[i].zone != c.zone {
      assert Out(calls, calls[i].zone);
    }
  }

  lemma SendFiled(s: State, id: Id)
    requires Inv(s) && id in s.dialogs && !s.dialogs[id].busy && s.dialogs[id].zone !in s.inFlight
    ensures var s' := SubmitStep(s, id); Filed(s'.dialogs, s'.calls, s'.inFlight, s'.created)
  {
    hide OneWrite, BusyIsPending;
  }

  lemma SendBusy(s: State, id: Id)
    requires Inv(s) && id in s.dialogs && !s.dialogs[id].busy && s.dialogs[id].zone !in s.inFlight
    ensures var s' := SubmitStep(s, id); BusyIsPending(s'.dialogs, s'.calls, s'.inFlight)
  {
    hide OneWrite, Filed, Owns;
    var s' := SubmitStep(s, id);
    CallsGrow(s.calls, Call(s.dialogs[id].zone, id));
    forall x | x in s'.dialogs
      ensures s'.dialogs[x].busy <==> Owns(s'.calls, x) || Waits(s'.dialogs, s'.inFlight, x)
    {
      assert s'.dialogs[x].zone == s.dialogs[x].zone;
      assert Waits(s'.dialogs, s'.inFlight, x) <==> Waits(s.dialogs, s.inFlight, x);
    }
  }

  lemma SubmitKeeps(s: State, id: Id)
    requires Inv(s)
    ensures Inv(SubmitStep(s, id))
  {
    hide OneWrite, Filed, BusyIsPending;
    if id in s.dialogs && !s.dialogs[id].busy {
      var z := s.dialogs[id].zone;
      if z in s.inFlight {
        ParkOneWrite(s.calls, s.inFlight, z, s.inFlight[z] + [id]);
        ParkFiled(s, id);
        ParkBusy(s, id);
      } else {
        SendOneWrite(s.calls, s.inFlight, Call(z, id));
        SendFiled(s, id);
        SendBusy(s, id);
      }
    }
  }

  // ------------------------------------------------------ an answer lands

  lemma {:induction false} ReleaseFrees(d: map<Id, Dialog>, ids: seq<Id>)
    ensures Release(d, ids).Keys == d.Keys
    ensures forall id | id in d :: Release(d, ids)[id] == if id in ids then d[id].(busy := false) else d[id]
    decreases |ids|
  {
    if ids == [] {
    } else {
      var d' := SetBusy(d, ids[0], false);
      ReleaseFrees(d', ids[1..]);
      assert forall id :: id in ids <==> id == ids[0] || id in ids[1..];
    }
  }

  /** The dialogs after an answer: the asking one and the waiters are let go, nothing else moves. */
  ghost predicate LetGo(before: map<Id, Dialog>, after: map<Id, Dialog>, owner: Id, waiters: seq<Id>) {
    && after.Keys == before.Keys
    && forall id | id in before :: after[id].zone == before[id].zone
         && after[id].busy == (before[id].busy && id != owner && id !in waiters)
  }

  /** Only the asking dialog takes note of a refusal, and no dialog changes what it is for. */
  ghost predicate Refused(before: map<Id, Dialog>, after: map<Id, Dialog>, owner: Id, refused: bool) {
    && after.Keys == before.Keys
    && forall id | id in before :: after[id].ending == before[id].ending
         && after[id].failed == (before[id].failed || (refused && id == owner))
  }

  /** The state after an answer, field by field. */
  lemma AnswerShape(s: State, k: nat, ok: bool)
    requires k < |s.calls| && s.calls[k].owner in s.dialogs
    ensures var s', c := AnswerStep(s, k, ok), s.calls[k];
      && s'.calls == Cut(s.calls, k) && s'.inFlight == s.inFlight - {c.zone}
      && s'.sent == s.sent && s'.answered == s.answered + [c.zone] && s'.created == s.created
      && LetGo(s.dialogs, s'.dialogs, c.owner, Waiters(s.inFlight, c.zone))
      && s'.panel == (if ok && s.panel == LeverPanel(c.owner) then NoPanel else s.panel)
      && s'.reports == s.reports
                       + [if !ok && s.panel == LeverPanel(c.owner) then InPanel(c.owner) else Toast(c.owner, ok)]
  {
    hide Cut, Waiters, Release;
    var c := s.calls[k];
    var mid := FinishStep(s.(inFlight := s.inFlight - {c.zone}, calls := Cut(s.calls, k),
                             answered := s.answered + [c.zone]), c.owner, ok);
    ReleaseFrees(mid.dialogs, Waiters(s.inFlight, c.zone));
  }

  lemma AnswerNotes(s: State, k: nat, ok: bool)
    requires k < |s.calls| && s.calls[k].owner in s.dialogs
    ensures Refused(s.dialogs, AnswerStep(s, k, ok).dialogs, s.calls[k].owner,
                    !ok && s.panel == LeverPanel(s.calls[k].owner))
  {
    hide Cut, Waiters, Release;
    var c := s.calls[k];
    var mid := FinishStep(s.(inFlight := s.inFlight - {c.zone}, calls := Cut(s.calls, k),
                             answered := s.answered + [c.zone]), c.owner, ok);
    ReleaseFrees(mid.dialogs, Waiters(s.inFlight, c.zone));
  }

  lemma CallsShrink(calls: seq<Call>, inFlight: map<Zone, seq<Id>>, k: nat)
    requires OneWrite(calls, inFlight) && k < |calls|
    ensures forall z :: Out(Cut(calls, k), z) <==> Out(calls, z) && z != calls[k].zone
    ensures forall x :: Owns(Cut(calls, k), x) ==> Owns(calls, x)
    ensures forall x :: Owns(calls, x) && x != calls[k].owner ==> Owns(Cut(calls, k), x)
  {
    hide Cut;
    var rest := Cut(calls, k);
    forall z ensures Out(rest, z) <==> Out(calls, z) && z != calls[k].zone {
      if Out(calls, z) && z != calls[k].zone {
        var i :| 0 <= i < |calls| && calls[i].zone == z;
        assert rest[if i < k then i else i - 1].zone == z;
      }
    }
    forall x | Owns(calls, x) && x != calls[k].owner ensures Owns(rest, x) {
      var i :| 0 <= i < |calls| && calls[i].owner == x;
      assert rest[if i < k then i else i - 1].owner == x;
    }
  }

  lemma AnswerOneWrite(calls: seq<Call>, inFlight: map<Zone, seq<Id>>, k: nat)
    requires OneWrite(calls, inFlight) && k < |calls|
    ensures OneWrite(Cut(calls, k), inFlight - {calls[k].zone})
  {
    hide Cut, Out;
    CallsShrink(calls, inFlight, k);
    var rest := Cut(calls, k);
    forall i, j | 0 <= i < |rest| && 0 <= j < |rest| && rest[i].zone == rest[j].zone ensures i == j {
      assert calls[if i < k then i else i + 1].zone == calls[if j < k then j else j + 1].zone;
    }
  }

  lemma AnswerFiled(s: State, after: map<Id, Dialog>, k: nat)
    requires Inv(s) && k < |s.calls|
    requires LetGo(s.dialogs, after, s.calls[k].owner, Waiters(s.inFlight, s.calls[k].zone))
    ensures Filed(after, Cut(s.calls, k), s.inFlight - {s.calls[k].zone}, s.created)
  {
    hide Cut, BusyIsPending, NoRepeats, Out;
    var rest, left := Cut(s.calls, k), s.inFlight - {s.calls[k].zone};
    forall j | 0 <= j < |rest|
      ensures rest[j].owner in after && after[rest[j].owner].zone == rest[j].zone
              && rest[j].owner !in Waiters(left, rest[j].zone)
    {
      var i := if j < k then j else j + 1;
      assert rest[j] == s.calls[i];
    }
  }

  /** Nobody else's dialog is pending on the answered write, and theirs is pending no more. */
  lemma AnswerPending(s: State, after: map<Id, Dialog>, k: nat, id: Id)
    requires Inv(s) && k < |s.calls| && id in s.dialogs
    requires LetGo(s.dialogs, after, s.calls[k].owner, Waiters(s.inFlight, s.calls[k].zone))
    ensures Owns(Cut(s.calls, k), id) || Waits(after, s.inFlight - {s.calls[k].zone}, id) <==>
            (Owns(s.calls, id) || Waits(s.dialogs, s.inFlight, id))
            && id != s.calls[k].owner && id !in Waiters(s.inFlight, s.calls[k].zone)
  {
    hide Cut, BusyIsPending, NoRepeats, Out;
    var c, rest := s.calls[k], Cut(s.calls, k);
    CallsShrink(s.calls, s.inFlight, k);
    if Owns(rest, id) {
      var j :| 0 <= j < |rest| && rest[j].owner == id;
      var i := if j < k then j else j + 1;
      assert s.calls[i] == rest[j] && s.calls[i].zone != c.zone;
    }
  }

  lemma AnswerBusy(s: State, after: map<Id, Dialog>, k: nat)
    requires Inv(s) && k < |s.calls|
    requires LetGo(s.dialogs, after, s.calls[k].owner, Waiters(s.inFlight, s.calls[k].zone))
    ensures BusyIsPending(after, Cut(s.calls, k), s.inFlight - {s.calls[k].zone})
  {
    hide OneWrite, Filed, Owns, Waits, Waiters, Cut;
    forall id | id in after
      ensures after[id].busy <==> Owns(Cut(s.calls, k), id) || Waits(after, s.inFlight - {s.calls[k].zone}, id)
    {
      AnswerPending(s, after, k, id);
    }
  }

  lemma AnswerKeeps(s: State, k: nat, ok: bool)
    requires Inv(s)
    ensures Inv(AnswerStep(s, k, ok))
  {
    if k < |s.calls| {
      var s' := AnswerStep(s, k, ok);
      hide OneWrite, BusyIsPending, AnswerStep, LetGo, Cut, Waiters;
      AnswerShape(s, k, ok);
      AnswerOneWrite(s.calls, s.inFlight, k);
      AnswerFiled(s, s'.dialogs, k);
      AnswerBusy(s, s'.dialogs, k);
    }
  }

  // ------------------------------------------------------------ every event

  lemma OpenBusy(s: State, d: Dialog)
    requires Inv(s) && !d.busy
    ensures BusyIsPending(s.dialogs[s.created := d], s.calls, s.inFlight)
  {
    hide OneWrite, NoRepeats;
    var after := s.dialogs[s.created := d];
    forall id | id in after ensures after[id].busy <==> Owns(s.calls, id) || Waits(after, s.inFlight, id) {
      if id == s.created {
        assert id !in s.dialogs;
      }
    }
  }

  lemma OpenFiled(s: State, d: Dialog)
    requires Inv(s)
    ensures Filed(s.dialogs[s.created := d], s.calls, s.inFlight, s.created + 1)
  {
    hide OneWrite, BusyIsPending, NoRepeats, Waiters;
    assert s.created !in s.dialogs;
  }

  lemma OpenKeeps(s: State, zone: Zone, ending: bool)
    requires Inv(s)
    ensures Inv(Step(s, Open(zone, ending)))
  {
    hide OneWrite, BusyIsPending, Filed;
    OpenBusy(s, Dialog(zone, ending, false, false));
    OpenFiled(s, Dialog(zone, ending, false, false));
  }

  lemma StepKeeps(s: State, ev: Event)
    requires Inv(s)
    ensures Inv(Step(s, ev))
  {
    hide OneWrite, Filed, BusyIsPending, SubmitStep, AnswerStep;
    match ev
    case Open(zone, ending) => OpenKeeps(s, zone, ending);
    case OpenOther =>
    case Dismiss =>
    case Submit(id) => SubmitKeeps(s, id);
    case Answer(k, ok) => AnswerKeeps(s, k, ok);
  }

  /** In every reachable state at most one write per zone is out, and busy means pending. */
  lemma {:induction false} AlwaysGood(s: State, evs: seq<Event>)
    requires Inv(s)
    ensures Inv(Run(s, evs))
    decreases |evs|
  {
    hide Inv, Step;
    if evs == [] {
    } else {
      StepKeeps(s, evs[0]);
      AlwaysGood(Step(s, evs[0]), evs[1..]);
    }
  }

  // ---------------------------------------------------------- what it gives

  /**
   * However the events fall, no zone has two writes out, and a busy dialog is one that owns or waits on
   * its zone's write.
   */
  lemma ReachableIsGood(evs: seq<Event>)
    ensures var s := Run(START, evs);
      OneWrite(s.calls, s.inFlight) && BusyIsPending(s.dialogs, s.calls, s.inFlight)
  {
    hide Run;
    StartsGood();
    AlwaysGood(START, evs);
  }

  lemma Freed(s: State, k: nat)
    requires Inv(s) && k < |s.calls|
    ensures var c := s.calls[k];
      && NoRepeats([c.owner] + Waiters(s.inFlight, c.zone))
      && forall id | id in [c.owner] + Waiters(s.inFlight, c.zone) :: id in s.dialogs && s.dialogs[id].busy
  {
    hide OneWrite;
    var c := s.calls[k];
    assert Owns(s.calls, c.owner);
    assert forall id | id in Waiters(s.inFlight, c.zone) :: Waits(s.dialogs, s.inFlight, id);
  }

  /**
   * An answer lets go of the dialog that asked and of every dialog parked behind
   * it, each of them busy until then and each once, and of nobody else; only the
   * asking dialog's own panel closes, and only on success; the answer is
   * reported exactly once, in that panel or in a toast, and a refusal is noted
   * in the panel that asked if it is still up.
   */
  lemma AnswerReleases(evs: seq<Event>, k: nat, ok: bool)
    requires k < |Run(START, evs).calls|
    ensures var s := Run(START, evs);
      var s', c := Step(s, Answer(k, ok)), s.calls[k];
      var freed := [c.owner] + Waiters(s.inFlight, c.zone);
      && NoRepeats(freed)
      && s'.dialogs.Keys == s.dialogs.Keys
      && Refused(s.dialogs, s'.dialogs, c.owner, !ok && s.panel == LeverPanel(c.owner))
      && (forall id | id in freed :: id in s.dialogs && s.dialogs[id].busy && !s'.dialogs[id].busy)
      && (forall id | id in s.dialogs && id !in freed :: s'.dialogs[id].busy == s.dialogs[id].busy)
      && s'.panel == (if ok && s.panel == LeverPanel(c.owner) then NoPanel else s.panel)
      && s'.reports == s.reports
                       + [if !ok && s.panel == LeverPanel(c.owner) then InPanel(c.owner) else Toast(c.owner, ok)]
      && c.zone !in s'.inFlight
  {
    var s := Run(START, evs);
    hide Run, AnswerStep, OneWrite, BusyIsPending, NoRepeats, Waiters;
    StartsGood();
    AlwaysGood(START, evs);
    Freed(s, k);
    AnswerShape(s, k, ok);
    AnswerNotes(s, k, ok);
  }

  /**
   * Confirming always does something: an idle dialog becomes busy, its old
   * refusal is forgotten, and if no write is out for its zone one is sent, in
   * its name; otherwise it goes to the end of the queue behind the one that is.
   */
  lemma SubmitMoves(evs: seq<Event>, id: Id)
    requires id in Run(START, evs).dialogs && !Run(START, evs).dialogs[id].busy
    ensures var s := Run(START, evs);
      var s', z := Step(s, Submit(id)), s.dialogs[id].zone;
      && s'.dialogs == s.dialogs[id := s.dialogs[id].(busy := true, failed := false)]
      && s'.panel == s.panel && s'.reports == s.reports && s'.answered == s.answered && s'.created == s.created
      && if forall k | 0 <= k < |s.calls| :: s.calls[k].zone != z then
           s'.calls == s.calls + [Call(z, id)] && s'.sent == s.sent + [z] && s'.inFlight == s.inFlight[z := []]
         else
           && s'.calls == s.calls && s'.sent == s.sent
           && z in s.inFlight && s'.inFlight == s.inFlight[z := s.inFlight[z] + [id]]
  {
    var s := Run(START, evs);
    hide Run, Filed, BusyIsPending;
    StartsGood();
    AlwaysGood(START, evs);
    assert s.dialogs[id].zone in s.inFlight <==> Out(s.calls, s.dialogs[id].zone);
  }

  /** Confirming again while busy does nothing: a zone's write is not sent twice. */
  lemma SubmitTwiceIsOnce(s: State, id: Id)
    ensures Step(Step(s, Submit(id)), Submit(id)) == Step(s, Submit(id))
  {}

  /** Opening adds an idle dialog for its zone, on a panel of its own, and touches nothing else. */
  lemma OpenShows(evs: seq<Event>, zone: Zone, ending: bool)
    ensures var s := Run(START, evs);
      var s' := Step(s, Open(zone, ending));
      && s.created !in s.dialogs
      && s'.dialogs == s.dialogs[s.created := Dialog(zone, ending, false, false)]
      && s'.panel == LeverPanel(s.created) && s'.created == s.created + 1
      && s' == s.(dialogs := s'.dialogs, panel := s'.panel, created := s'.created)
  {
    hide Run;
    StartsGood();
    AlwaysGood(START, evs);
  }

  /** The panel may go or be replaced at any time; nothing else hangs on it. */
  lemma PanelIsOnlyAView(s: State)
    ensures Step(s, Dismiss) == s.(panel := NoPanel) && Step(s, OpenOther) == s.(panel := OtherPanel)
  {}

  // ------------------------------------------------------------- progress

  /** The brain's answers to the writes that are out, oldest first. */
  function Answers(oks: seq<bool>): (evs: seq<Event>)
    ensures |evs| == |oks| && forall k | 0 <= k < |evs| :: evs[k] == Answer(0, oks[k])
  {
    seq(|oks|, k requires 0 <= k < |oks| => Answer(0, oks[k]))
  }

  /** Once every write that is out has been answered, well or badly, no zone is taken and no dialog is left waiting. */
  lemma {:induction false} AnswersFreeEverybody(s: State, oks: seq<bool>)
    requires Inv(s) && |oks| == |s.calls|
    ensures var s' := Run(s, Answers(oks));
      s'.calls == [] && s'.inFlight == map[] && forall id | id in s'.dialogs :: !s'.dialogs[id].busy
    decreases |oks|
  {
    if oks == [] {
      NobodyPending(s);
    } else {
      var s' := Step(s, Answer(0, oks[0]));
      StepKeeps(s, Answer(0, oks[0]));
      CallIsOut(s, 0);
      AnswerShape(s, 0, oks[0]);
      assert Answers(oks)[1..] == Answers(oks[1..]);
      hide Inv, Step, Cut;
      AnswersFreeEverybody(s', oks[1..]);
    }
  }

  lemma NobodyPending(s: State)
    requires Inv(s) && s.calls == []
    ensures s.inFlight == map[] && forall id | id in s.dialogs :: !s.dialogs[id].busy
  {
    assert forall z :: !Out(s.calls, z);
  }

  function Count<T(==)>(xs: seq<T>, x: T): nat {
    if xs == [] then 0 else (if xs[0] == x then 1 else 0) + Count(xs[1..], x)
  }

  lemma {:induction false} CountJoin<T>(xs: seq<T>, y: T, x: T)
    ensures Count(xs + [y], x) == Count(xs, x) + if x == y then 1 else 0
  {
    if xs == [] {
      assert [y][1..] == [] && xs + [y] == [y];
    } else {
      assert (xs + [y])[1..] == xs[1..] + [y];
      CountJoin(xs[1..], y, x);
    }
  }

  /** Writes sent for a zone are the answers it got plus the one still out, if any. */
  ghost predicate Balanced(sent: seq<Zone>, answered: seq<Zone>, inFlight: map<Zone, seq<Id>>) {
    forall z :: Count(sent, z) == Count(answered, z) + if z in inFlight then 1 else 0
  }

  lemma CallIsOut(s: State, k: nat)
    requires Inv(s) && k < |s.calls|
    ensures s.calls[k].zone in s.inFlight && s.calls[k].owner in s.dialogs
  {
    hide BusyIsPending, NoRepeats;
    assert Out(s.calls, s.calls[k].zone);
  }

  lemma ZoneBalances(sent: seq<Zone>, answered: seq<Zone>, inFlight: map<Zone, seq<Id>>, z: Zone)
    requires Balanced(sent, answered, inFlight) && z in inFlight
    ensures Balanced(sent, answered + [z], inFlight - {z})
  {
    hide Count;
    forall x ensures Count(sent, x) == Count(answered + [z], x) + if x in inFlight - {z} then 1 else 0 {
      CountJoin(answered, z, x);
    }
  }

  lemma AnswerBalances(s: State, k: nat, ok: bool)
    requires Inv(s) && Balanced(s.sent, s.answered, s.inFlight)
    ensures var s' := AnswerStep(s, k, ok); Balanced(s'.sent, s'.answered, s'.inFlight)
  {
    if k < |s.calls| {
      hide AnswerStep, Inv, LetGo, Balanced, Cut;
      CallIsOut(s, k);
      AnswerShape(s, k, ok);
      ZoneBalances(s.sent, s.answered, s.inFlight, s.calls[k].zone);
    }
  }

  lemma SubmitBalances(s: State, id: Id)
    requires Balanced(s.sent, s.answered, s.inFlight)
    ensures var s' := SubmitStep(s, id); Balanced(s'.sent, s'.answered, s'.inFlight)
  {
    hide Count;
    var s' := SubmitStep(s, id);
    if s'.sent != s.sent {
      forall z ensures Count(s'.sent, z) == Count(s'.answered, z) + if z in s'.inFlight then 1 else 0 {
        CountJoin(s.sent, s.dialogs[id].zone, z);
      }
    } else {
      assert s'.inFlight.Keys == s.inFlight.Keys || id !in s.dialogs || s.dialogs[id].busy;
    }
  }

  lemma StepBalances(s: State, ev: Event)
    requires Inv(s) && Balanced(s.sent, s.answered, s.inFlight)
    ensures var s' := Step(s, ev); Balanced(s'.sent, s'.answered, s'.inFlight)
  {
    hide Inv, Balanced, SubmitStep, AnswerStep;
    match ev
    case Open(_, _) =>
    case OpenOther =>
    case Dismiss =>
    case Submit(id) => SubmitBalances(s, id);
    case Answer(k, ok) => AnswerBalances(s, k, ok);
  }

  /** Over any run every write that was sent is answered once or is the one still out. */
  lemma {:induction false} WritesBalance(s: State, evs: seq<Event>)
    requires Inv(s) && Balanced(s.sent, s.answered, s.inFlight)
    ensures var s' := Run(s, evs); Balanced(s'.sent, s'.answered, s'.inFlight)
    decreases |evs|
  {
    hide Inv, Balanced, Step;
    if evs == [] {
    } else {
      StepKeeps(s, evs[0]);
      StepBalances(s, evs[0]);
      WritesBalance(Step(s, evs[0]), evs[1..]);
    }
  }
}

/** The console's own code for the lever: closures, the table of writes in flight, one popover. */
module LeverDesk {
  import opened Basics
  import opened Lever

  class Desk {
    var dialogs: map<Id, Dialog>
    var inFlight: map<Zone, seq<Id>>
    var panel: Panel
    var calls: seq<Call>
    var sent: seq<Zone>
    var answered: seq<Zone>
    var reports: seq<Report>
    var created: nat

    constructor ()
      ensures Now() == START
    {
      dialogs, inFlight, panel, calls := map[], map[], NoPanel, [];
      sent, answered, reports, created := [], [], [], 0;
    }

    function Now(): State
      reads this
    {
      State(dialogs, inFlight, panel, calls, sent, answered, reports, created)
    }

    method OpenDialog(zone: Zone, ending: bool) returns (id: Id)
      modifies this`dialogs, this`panel, this`created
      ensures id == old(created) && Now() == Step(old(Now()), Open(zone, ending))
    {
      id := created;
      dialogs := dialogs[id := Dialog(zone, ending, false, false)];
      panel := LeverPanel(id);
      created := created + 1;
    }

    method Close()
      modifies this`panel
      ensures Now() == Step(old(Now()), Dismiss)
    {
      panel := NoPanel;
    }

    method SubmitDialog(id: Id)
      modifies this`dialogs, this`inFlight, this`calls, this`sent
      ensures Now() == Step(old(Now()), Submit(id))
    {
      if id !in dialogs || dialogs[id].busy { return; }
      var zone := dialogs[id].zone;
      dialogs := dialogs[id := dialogs[id].(failed := false, busy := true)];
      if zone in inFlight {
        inFlight := inFlight[zone := inFlight[zone] + [id]];
        return;
      }
      inFlight := inFlight[zone := []];
      calls := calls + [Call(zone, id)];
      sent := sent + [zone];
    }

    /** The asking dialog reads the answer: in its own panel if that is still up, in a toast otherwise. */
    method Finish(id: Id, ok: bool)
      modifies this`dialogs, this`panel, this`reports
      ensures Now() == FinishStep(old(Now()), id, ok)
    {
      if id in dialogs { dialogs := dialogs[id := dialogs[id].(busy := false)]; }
      var mine := panel == LeverPanel(id);
      if !ok {
        if mine && id in dialogs {
          dialogs := dialogs[id := dialogs[id].(failed := true)];
          reports := reports + [InPanel(id)];
          return;
        }
        reports := reports + [Toast(id, false)];
        return;
      }
      if mine { panel := NoPanel; }
      reports := reports + [Toast(id, true)];
    }

    method Done(k: nat, ok: bool)
      requires k < |calls|
      modifies this`dialogs, this`panel, this`reports, this`inFlight, this`calls, this`answered
      ensures Now() == Step(old(Now()), Answer(k, ok))
    {
      var c := calls[k];
      var waiters := if c.zone in inFlight then inFlight[c.zone] else [];
      inFlight := inFlight - {c.zone};
      calls := Cut(calls, k);
      answered := answered + [c.zone];
      Finish(c.owner, ok);
      ghost var mid := Now();
      var i := 0;
      assert waiters[0..] == waiters;
      while i < |waiters|
        invariant 0 <= i <= |waiters|
        invariant Release(dialogs, waiters[i..]) == Release(mid.dialogs, waiters)
        invariant Now() == mid.(dialogs := dialogs)
      {
        assert waiters[i..][0] == waiters[i] && waiters[i..][1..] == waiters[i + 1..];
        if waiters[i] in dialogs {
          dialogs := dialogs[waiters[i] := dialogs[waiters[i]].(busy := false)];
        }
        i := i + 1;
      }
    }
  }
}
