/** The service router shared by any number of concurrent callers. Each atomic add and subtract on
    a slot is one step; a schedule names the caller that moves next, in any order whatever. */
module InterleavedRouter {
  import opened Sums
  import opened SmoothWeighted

  /** A caller is between calls, or has raised the slots below `next` and remembers the first
      largest value it saw. */
  datatype Caller = Idle | Adding(next: nat, largest: int, selected: nat)

  /** `completed` and `picks` record what finished calls returned. */
  datatype State = State(current: seq<int>, callers: seq<Caller>, completed: nat, picks: seq<nat>)

  ghost predicate WellFormed(ws: seq<nat>, s: State) {
    && |ws| == |s.current| == |s.picks|
    && |ws| >= 2
    && forall c :: 0 <= c < |s.callers| && s.callers[c].Adding? ==>
         s.callers[c].next <= |ws| && s.callers[c].selected < |ws|
  }

  function Start(ws: seq<nat>, callers: nat): State {
    State(Zeros(|ws|), seq(callers, _ => Idle), 0, seq(|ws|, _ => 0))
  }

  /** The next atomic step of caller `c`. */
  function Move(ws: seq<nat>, s: State, c: nat): State
    requires WellFormed(ws, s) && c < |s.callers|
  {
    match s.callers[c]
    case Idle =>
      s.(callers := s.callers[c := Adding(0, 0, 0)])
    case Adding(j, largest, selected) =>
      if j < |ws| then
        var v := s.current[j] + ws[j];
        var seen := if j == 0 || v > largest then Adding(j + 1, v, j) else Adding(j + 1, largest, selected);
        s.(current := s.current[j := v], callers := s.callers[c := seen])
      else
        s.(current := s.current[selected := s.current[selected] - Sum(ws)],
           callers := s.callers[c := Idle],
           completed := s.completed + 1,
           picks := s.picks[selected := s.picks[selected] + 1])
  }

  lemma MoveKeepsWellFormed(ws: seq<nat>, s: State, c: nat)
    requires WellFormed(ws, s) && c < |s.callers|
    ensures WellFormed(ws, Move(ws, s, c)) && |Move(ws, s, c).callers| == |s.callers|
  {
  }

  /** The state after a schedule of steps; entries that name no caller are skipped. */
  function Exec(ws: seq<nat>, s: State, schedule: seq<nat>): (r: State)
    requires WellFormed(ws, s)
    ensures WellFormed(ws, r) && |r.callers| == |s.callers|
  {
    if schedule == [] then s
    else
      var before := Exec(ws, s, schedule[..|schedule| - 1]);
      var c := schedule[|schedule| - 1];
      if c < |before.callers| then
        MoveKeepsWellFormed(ws, before, c);
        Move(ws, before, c)
      else before
  }

  /** One when caller `c` has already raised slot `i` in its unfinished call. */
  function Passed(caller: Caller, i: nat): nat {
    if caller.Adding? && i < caller.next then 1 else 0
  }

  function PassedAll(callers: seq<Caller>, i: nat): (r: seq<nat>)
    ensures |r| == |callers|
  {
    seq(|callers|, c requires 0 <= c < |callers| => Passed(callers[c], i))
  }

  /** What an unfinished call has added to the slots so far. */
  function Contribution(ws: seq<nat>, caller: Caller): int {
    if caller.Adding? && caller.next <= |ws| then SumTo(ws, caller.next) else 0
  }

  function Contributions(ws: seq<nat>, callers: seq<Caller>): (r: seq<int>)
    ensures |r| == |callers|
  {
    seq(|callers|, c requires 0 <= c < |callers| => Contribution(ws, callers[c]))
  }

  /** Slot `i` holds its weight once per call that has passed it, less the total per pick. */
  ghost predicate SlotBalanced(ws: seq<nat>, s: State, i: nat)
    requires WellFormed(ws, s) && i < |ws|
  {
    s.current[i] == (s.completed + Sum(PassedAll(s.callers, i))) * ws[i] - s.picks[i] * Sum(ws)
  }

  /** The slots together hold exactly what unfinished calls have added. */
  ghost predicate SumBalanced(ws: seq<nat>, s: State)
    requires WellFormed(ws, s)
  {
    && Sum(s.current) == Sum(Contributions(ws, s.callers))
    && Sum(s.picks) == s.completed
  }

  lemma CallerChanges(ws: seq<nat>, callers: seq<Caller>, c: nat, k: Caller, i: nat)
    requires c < |callers|
    ensures Sum(PassedAll(callers[c := k], i))
         == Sum(PassedAll(callers, i)) - Passed(callers[c], i) + Passed(k, i)
    ensures Sum(Contributions(ws, callers[c := k]))
         == Sum(Contributions(ws, callers)) - Contribution(ws, callers[c]) + Contribution(ws, k)
  {
    SumUpdate(PassedAll(callers, i), c, Passed(k, i));
    assert PassedAll(callers[c := k], i) == PassedAll(callers, i)[c := Passed(k, i)];
    SumUpdate(Contributions(ws, callers), c, Contribution(ws, k));
    assert Contributions(ws, callers[c := k]) == Contributions(ws, callers)[c := Contribution(ws, k)];
  }

  lemma SlotArithmetic(a: int, w: int, c: int, t: int)
    ensures (a + 1) * w == a * w + w && (c + 1) * t == c * t + t
  {
  }

  lemma MoveKeepsSlot(ws: seq<nat>, s: State, c: nat, i: nat)
    requires WellFormed(ws, s) && c < |s.callers| && i < |ws|
    requires SlotBalanced(ws, s, i)
    ensures WellFormed(ws, Move(ws, s, c)) && SlotBalanced(ws, Move(ws, s, c), i)
  {
    MoveKeepsWellFormed(ws, s, c);
    var r := Move(ws, s, c);
    CallerChanges(ws, s.callers, c, r.callers[c], i);
    SlotArithmetic(s.completed + Sum(PassedAll(s.callers, i)), ws[i], s.picks[i], Sum(ws));
  }

  lemma MoveKeepsSum(ws: seq<nat>, s: State, c: nat)
    requires WellFormed(ws, s) && c < |s.callers|
    requires SumBalanced(ws, s)
    ensures WellFormed(ws, Move(ws, s, c)) && SumBalanced(ws, Move(ws, s, c))
  {
    MoveKeepsWellFormed(ws, s, c);
    var r := Move(ws, s, c);
    CallerChanges(ws, s.callers, c, r.callers[c], 0);
    if s.callers[c].Adding? {
      var j, selected := s.callers[c].next, s.callers[c].selected;
      if j < |ws| {
        SumUpdate(s.current, j, s.current[j] + ws[j]);
      } else {
        SumUpdate(s.current, selected, s.current[selected] - Sum(ws));
        SumUpdate(s.picks, selected, s.picks[selected] + 1);
      }
    }
  }

  lemma StartBalanced(ws: seq<nat>, callers: nat)
    requires |ws| >= 2
    ensures WellFormed(ws, Start(ws, callers)) && SumBalanced(ws, Start(ws, callers))
    ensures forall i :: 0 <= i < |ws| ==> SlotBalanced(ws, Start(ws, callers), i)
  {
    var s := Start(ws, callers);
    SumToZeros(s.current, |ws|);
    SumToZeros(s.picks, |ws|);
    SumToZeros(Contributions(ws, s.callers), callers);
    forall i | 0 <= i < |ws| ensures SlotBalanced(ws, s, i) {
      SumToZeros(PassedAll(s.callers, i), callers);
    }
  }

  /** Accounting under every interleaving of any number of callers. */
  lemma {:induction false} EverySchedule(ws: seq<nat>, callers: nat, schedule: seq<nat>, i: nat)
    requires |ws| >= 2 && i < |ws| && WellFormed(ws, Start(ws, callers))
    ensures SumBalanced(ws, Exec(ws, Start(ws, callers), schedule))
    ensures SlotBalanced(ws, Exec(ws, Start(ws, callers), schedule), i)
  {
    if schedule == [] {
      StartBalanced(ws, callers);
    } else {
      var n := |schedule| - 1;
      EverySchedule(ws, callers, schedule[..n], i);
      if schedule[n] < callers {
        var before := Exec(ws, Start(ws, callers), schedule[..n]);
        MoveKeepsSum(ws, before, schedule[n]);
        MoveKeepsSlot(ws, before, schedule[n], i);
      }
    }
  }

  /** Whenever no call is in flight, every slot holds exactly its earnings minus its charges and
      the slots sum to zero, whatever the interleaving that led there. */
  lemma QuietAccounting(ws: seq<nat>, callers: nat, schedule: seq<nat>, i: nat)
    requires |ws| >= 2 && i < |ws| && WellFormed(ws, Start(ws, callers))
    requires forall c :: 0 <= c < callers ==> Exec(ws, Start(ws, callers), schedule).callers[c].Idle?
    ensures var s := Exec(ws, Start(ws, callers), schedule);
            && s.current[i] == s.completed * ws[i] - s.picks[i] * Sum(ws)
            && Sum(s.current) == 0
            && Sum(s.picks) == s.completed
  {
    var s := Exec(ws, Start(ws, callers), schedule);
    EverySchedule(ws, callers, schedule, i);
    SumToZeros(PassedAll(s.callers, i), callers);
    SumToZeros(Contributions(ws, s.callers), callers);
  }

  // ---- A call nobody interrupts is one sequential pick ----

  /** `n` consecutive steps of caller `c`. */
  function Alone(ws: seq<nat>, s: State, c: nat, n: nat): (r: State)
    requires WellFormed(ws, s) && c < |s.callers|
    ensures WellFormed(ws, r) && |r.callers| == |s.callers|
  {
    if n == 0 then s
    else
      MoveKeepsWellFormed(ws, Alone(ws, s, c, n - 1), c);
      Move(ws, Alone(ws, s, c, n - 1), c)
  }

  /** `r` is `s` after caller `c` alone has begun a call and raised the slots below `j`. */
  ghost predicate Halfway(ws: seq<nat>, s: State, c: nat, j: nat, r: State)
    requires WellFormed(ws, s) && c < |s.callers| && j <= |ws|
  {
    var raised := Raised(AllOn(ws), s.current);
    && r.picks == s.picks && r.completed == s.completed
    && |r.current| == |ws|
    && (forall i :: 0 <= i < j ==> r.current[i] == raised[i])
    && (forall i :: j <= i < |ws| ==> r.current[i] == s.current[i])
    && |r.callers| == |s.callers| && r.callers == s.callers[c := r.callers[c]]
    && r.callers[c].Adding? && r.callers[c].next == j && r.callers[c].selected < |ws|
    && (j > 0 ==>
          && r.callers[c].selected == Best(raised, AllOn(ws).on, j)
          && r.callers[c].largest == raised[r.callers[c].selected])
  }

  lemma RaiseOne(ws: seq<nat>, s: State, c: nat, j: nat, r: State)
    requires WellFormed(ws, s) && c < |s.callers| && j < |ws|
    requires Halfway(ws, s, c, j, r) && WellFormed(ws, r)
    ensures Halfway(ws, s, c, j + 1, Move(ws, r, c))
  {
    AllOnShares(ws);
    var q := Move(ws, r, c);
    assert q.callers == s.callers[c := q.callers[c]];
    assert q.current[j] == Raised(AllOn(ws), s.current)[j];
  }

  lemma {:induction false} AddPhaseAlone(ws: seq<nat>, s: State, c: nat, j: nat)
    requires WellFormed(ws, s) && c < |s.callers| && s.callers[c].Idle? && j <= |ws|
    ensures Halfway(ws, s, c, j, Alone(ws, s, c, j + 1))
  {
    if j == 0 {
      assert Alone(ws, s, c, 1) == Move(ws, Alone(ws, s, c, 0), c);
    } else {
      AddPhaseAlone(ws, s, c, j - 1);
      RaiseOne(ws, s, c, j - 1, Alone(ws, s, c, j));
    }
  }

  lemma ChargeOne(ws: seq<nat>, s: State, c: nat, r: State)
    requires WellFormed(ws, s) && c < |s.callers| && s.callers[c].Idle?
    requires Halfway(ws, s, c, |ws|, r) && WellFormed(ws, r)
    ensures var b := Choice(AllOn(ws), s.current);
            && 0 <= b < |ws|
            && Move(ws, r, c)
            == State(Step(AllOn(ws), s.current), s.callers, s.completed + 1, s.picks[b := s.picks[b] + 1])
  {
    AllOnShares(ws);
    assert r.current == Raised(AllOn(ws), s.current);
    assert Move(ws, r, c).callers == s.callers;
  }

  /** An uninterrupted call does what one step of the sequential algorithm does. */
  lemma UninterruptedCall(ws: seq<nat>, s: State, c: nat)
    requires WellFormed(ws, s) && c < |s.callers| && s.callers[c].Idle?
    ensures var r := Alone(ws, s, c, |ws| + 2); var b := Choice(AllOn(ws), s.current);
            && 0 <= b < |ws|
            && r == State(Step(AllOn(ws), s.current), s.callers, s.completed + 1, s.picks[b := s.picks[b] + 1])
  {
    AddPhaseAlone(ws, s, c, |ws|);
    ChargeOne(ws, s, c, Alone(ws, s, c, |ws| + 1));
  }
}
