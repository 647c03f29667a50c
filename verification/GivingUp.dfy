/** When the reader thread gives up: after four reads in a row that failed, and never after fewer. */
module GivingUp {
  import opened Wrappers
  import opened Protocol
  import opened Scheduler
  import Session

  /** What read number k yields: once the input is used up, nothing. */
  function ReadAt(input: seq<Option<Message>>, k: nat): Option<Message> {
    if k < |input| then input[k] else None
  }

  /** The failures counted are those of the last reads, after n of them. */
  ghost predicate Successive(input: seq<Option<Message>>, s: State, n: nat) {
    && s.input == (if n <= |input| then input[n..] else [])
    && s.failures <= n
    && (forall k :: n - s.failures <= k < n ==> ReadAt(input, k).None?)
    && (s.failures < n ==> ReadAt(input, n - s.failures - 1).Some?)
  }

  lemma ReadSuccessive(input: seq<Option<Message>>, s: State, n: nat)
    requires Successive(input, s, n) && StepRead(s).Some?
    ensures Successive(input, StepRead(s).value, n + 1)
  {
    assert s.input != [] ==> s.input[0] == ReadAt(input, n) && s.input[1..] == input[n + 1..];
  }

  lemma OthersSuccessive(dump: Dump, input: seq<Option<Message>>, s: State, a: Action, n: nat)
    requires Successive(input, s, n) && !a.Read? && Next(dump, s, a).Some?
    ensures Successive(input, Next(dump, s, a).value, n)
  {
    hide Successive;
    OthersReadNothing(dump, s, a);
    SameReads(input, s, Next(dump, s, a).value, n);
  }

  lemma SameReads(input: seq<Option<Message>>, s: State, s': State, n: nat)
    requires Successive(input, s, n) && s'.input == s.input && s'.failures == s.failures
    ensures Successive(input, s', n)
  {
  }

  lemma OthersReadNothing(dump: Dump, s: State, a: Action)
    requires !a.Read? && Next(dump, s, a).Some?
    ensures Next(dump, s, a).value.input == s.input && Next(dump, s, a).value.failures == s.failures
  {
    hide StepThread, StepRead;
    if a.Step? {
      StepFields(dump, s, a.t);
    }
  }

  lemma {:induction false} RunSuccessive(dump: Dump, input: seq<Option<Message>>, s: State, n: nat,
                                         actions: seq<Action>) returns (n': nat)
    requires Successive(input, s, n) && Run(dump, s, actions).Some?
    ensures Successive(input, Run(dump, s, actions).value, n')
    decreases |actions|
  {
    hide Successive, StepRead;
    n' := n;
    if actions != [] {
      if actions[0].Read? {
        ReadSuccessive(input, s, n);
        n' := n + 1;
      } else {
        OthersSuccessive(dump, input, s, actions[0], n);
      }
      hide Next;
      n' := RunSuccessive(dump, input, Next(dump, s, actions[0]).value, n', actions[1..]);
    }
  }

  lemma InitiallySuccessive(input: seq<Option<Message>>, logs: seq<LogRecord>, workers: nat)
    ensures Successive(input, Initial(input, logs, workers), 0)
  {
  }

  /** A read makes the reader thread give up if and only if it is the fourth one in a row that fails, or a later one;
      otherwise it goes on reading or has a message to schedule. */
  lemma GivesUpIff(dump: Dump, input: seq<Option<Message>>, s: State) returns (n: nat)
    requires Session.ReachableFrom(dump, input, s) && StepRead(s).Some?
    ensures s.input == if n <= |input| then input[n..] else []
    ensures StepRead(s).value.main.Exited? <==> n >= 3 && forall k :: n - 3 <= k <= n ==> ReadAt(input, k).None?
  {
    hide *;
    var logs, workers, actions := Session.RunFrom(dump, input, s);
    InitiallySuccessive(input, logs, workers);
    n := RunSuccessive(dump, input, Initial(input, logs, workers), 0, actions);
    FourInARow(input, s, n);
  }

  lemma FourInARow(input: seq<Option<Message>>, s: State, n: nat)
    requires Successive(input, s, n) && StepRead(s).Some?
    ensures s.input == if n <= |input| then input[n..] else []
    ensures StepRead(s).value.main.Exited? <==> n >= 3 && forall k :: n - 3 <= k <= n ==> ReadAt(input, k).None?
  {
    assert s.input != [] ==> s.input[0] == ReadAt(input, n);
    if s.failures < 3 && n >= 3 {
      assert ReadAt(input, n - s.failures - 1).Some?;
    }
  }
}
