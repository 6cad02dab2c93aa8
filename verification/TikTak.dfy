/** Two goroutines taking turns over a buffered and an unbuffered channel. tiktak/main.go. */
module TikTak {

  datatype Word = Tik | Tak

  /** Before the receive, before the print, before the send. */
  datatype Pc = Await | Say | Pass

  /** `rounds` is the loop variable. */
  datatype Side = Side(rounds: nat, pc: Pc)

  /** `token` is the one slot of tikCh; takCh has none, so its sender and receiver meet. */
  datatype State = State(n: int, tik: Side, tak: Side, token: bool, out: seq<Word>)

  function NewTikTak(n: int): State {
    State(n, Side(0, Await), Side(0, Await), true, [])
  }

  datatype Step = TikReceives | TikSays | Meet | TakSays | TakSends

  predicate Enabled(s: State, step: Step) {
    match step
    case TikReceives => s.tik.rounds < s.n && s.tik.pc.Await? && s.token
    case TikSays => s.tik.rounds < s.n && s.tik.pc.Say?
    case Meet => s.tik.rounds < s.n && s.tik.pc.Pass? && s.tak.rounds < s.n && s.tak.pc.Await?
    case TakSays => s.tak.rounds < s.n && s.tak.pc.Say?
    case TakSends => s.tak.rounds < s.n && s.tak.pc.Pass? && !s.token
  }

  function Do(s: State, step: Step): State {
    match step
    case TikReceives => s.(tik := s.tik.(pc := Say), token := false)
    case TikSays => s.(tik := s.tik.(pc := Pass), out := s.out + [Tik])
    case Meet => s.(tik := Side(s.tik.rounds + 1, Await), tak := s.tak.(pc := Say))
    case TakSays => s.(tak := s.tak.(pc := Pass), out := s.out + [Tak])
    case TakSends => s.(tak := Side(s.tak.rounds + 1, Await), token := true)
  }

  predicate Finished(s: State) {
    s.tik.rounds >= s.n && s.tak.rounds >= s.n
  }

  /** The words "Tik", "Tak" n times over. */
  function Song(n: nat): (r: seq<Word>)
    ensures |r| == 2 * n
  {
    if n == 0 then [] else Song(n - 1) + [Tik, Tak]
  }

  /** Whose turn it is, and how much has been printed by then. */
  ghost predicate Inv(s: State) {
    && s.tak.rounds <= Rounds(s.n)
    && if s.tak.pc.Await? then
         && s.tik.rounds == s.tak.rounds && (s.token <==> s.tik.pc.Await?)
         && (s.tik.pc.Await? || s.tak.rounds < s.n)
         && s.out == Song(s.tak.rounds) + if s.tik.pc.Pass? then [Tik] else []
       else
         && s.tik.rounds == s.tak.rounds + 1 <= s.n && s.tik.pc.Await? && !s.token
         && s.out == Song(s.tak.rounds) + if s.tak.pc.Pass? then [Tik, Tak] else [Tik]
  }

  function Rounds(n: int): nat {
    if n > 0 then n else 0
  }

  lemma NewTikTakInv(n: int)
    ensures Inv(NewTikTak(n))
  {
  }

  lemma StepKeepsInv(s: State, step: Step)
    requires Inv(s) && Enabled(s, step)
    ensures Inv(Do(s, step))
  {
    assert [Tik] + [Tak] == [Tik, Tak];
  }

  /** The steps still to be taken: five a round. */
  function ToDo(s: State): int {
    5 * (Rounds(s.n) - s.tak.rounds) -
    match (s.tik.pc, s.tak.pc)
    case (Say, _) => 1
    case (Pass, _) => 2
    case (_, Say) => 3
    case (_, Pass) => 4
    case _ => 0
  }

  lemma {:induction false} SongPrefix(k: nat, n: nat)
    requires k <= n
    ensures Song(k) == Song(n)[..2 * k]
  {
    if k < n {
      SongPrefix(k, n - 1);
    }
  }

  /** Whatever the schedule, the output is a beginning of the song, and all of it at the end. */
  lemma OutputIsSong(s: State)
    requires Inv(s)
    ensures s.out <= Song(Rounds(s.n))
    ensures Finished(s) && s.tak.pc.Await? ==> s.out == Song(Rounds(s.n))
  {
    var k := s.tak.rounds;
    SongPrefix(k, Rounds(s.n));
    if k < Rounds(s.n) {
      SongPrefix(k + 1, Rounds(s.n));
    }
  }

  /** In every reachable state exactly one step can be taken, until both loops have ended: no
      deadlock, and no choice either. */
  lemma ExactlyOneStep(s: State) returns (step: Step)
    requires Inv(s)
    ensures ToDo(s) >= 0
    ensures ToDo(s) == 0 ==> Finished(s) && s.tak.pc.Await? && forall other :: !Enabled(s, other)
    ensures ToDo(s) > 0 ==> Enabled(s, step) && ToDo(Do(s, step)) == ToDo(s) - 1
    ensures ToDo(s) > 0 ==> forall other :: Enabled(s, other) ==> other == step
  {
    step := if s.tik.pc.Say? then TikSays else if s.tik.pc.Pass? then Meet
    else if s.tak.pc.Say? then TakSays else if s.tak.pc.Pass? then TakSends else TikReceives;
    if ToDo(s) == 0 {
      forall other ensures !Enabled(s, other) {
        match other
        case _ =>
      }
    }
  }

  // ---------- Whole runs ----------

  /** states[i + 1] is what the i-th step makes of states[i], whoever takes it. */
  ghost predicate IsRun(n: int, states: seq<State>, steps: seq<Step>) {
    && |states| == |steps| + 1 && states[0] == NewTikTak(n)
    && forall i :: 0 <= i < |steps| ==> Enabled(states[i], steps[i]) && states[i + 1] == Do(states[i], steps[i])
  }

  lemma {:induction false} RunSoFar(n: int, states: seq<State>, steps: seq<Step>, i: nat)
    requires IsRun(n, states, steps) && i <= |steps|
    ensures Inv(states[i]) && states[i].n == n && ToDo(states[i]) == 5 * Rounds(n) - i
  {
    if i == 0 {
      NewTikTakInv(n);
    } else {
      RunSoFar(n, states, steps, i - 1);
      StepKeepsInv(states[i - 1], steps[i - 1]);
      var step := ExactlyOneStep(states[i - 1]);
    }
  }

  /** In every run whatsoever the output is a beginning of the song, and no run has more than
      five steps a round. */
  lemma EveryRunSings(n: int, states: seq<State>, steps: seq<Step>)
    requires IsRun(n, states, steps)
    ensures |steps| <= 5 * Rounds(n) && states[|steps|].out <= Song(Rounds(n))
  {
    RunSoFar(n, states, steps, |steps|);
    OutputIsSong(states[|steps|]);
    var step := ExactlyOneStep(states[|steps|]);
  }

  /** A run stops exactly when both loops have ended, after five steps a round and with the
      whole song sung: nobody is ever stuck before that. */
  lemma StopsWhenSung(n: int, states: seq<State>, steps: seq<Step>)
    requires IsRun(n, states, steps)
    ensures var end := states[|steps|];
      && ((forall step :: !Enabled(end, step)) <==> |steps| == 5 * Rounds(n))
      && (|steps| == 5 * Rounds(n) ==> Finished(end) && end.out == Song(Rounds(n)))
  {
    var end := states[|steps|];
    RunSoFar(n, states, steps, |steps|);
    OutputIsSong(end);
    var step := ExactlyOneStep(end);
  }

  /** Such a run exists from every state on the way: both sides do finish. */
  lemma {:induction false} BothFinish(n: int, states: seq<State>, steps: seq<Step>)
    returns (states': seq<State>, steps': seq<Step>)
    requires IsRun(n, states, steps)
    ensures IsRun(n, states', steps') && states <= states' && steps <= steps'
    ensures |steps'| == 5 * Rounds(n)
    decreases 5 * Rounds(n) - |steps|
  {
    EveryRunSings(n, states, steps);
    RunSoFar(n, states, steps, |steps|);
    if |steps| == 5 * Rounds(n) {
      states', steps' := states, steps;
    } else {
      var step := ExactlyOneStep(states[|steps|]);
      states', steps' := BothFinish(n, states + [Do(states[|steps|], step)], steps + [step]);
    }
  }
}
