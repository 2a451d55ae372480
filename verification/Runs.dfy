/** Runs of a component: a list of calls, the answers to them and the states in
    between. */
module Runs {

  ghost predicate SoundAt<S(!new)>(sound: S -> bool, trace: seq<S>, n: int) {
    0 <= n < |trace| && sound(trace[n])
  }

  ghost predicate StepAt<S(!new), C, A>(step: (S, C, A, S) -> bool,
                                  calls: seq<C>, answers: seq<A>, trace: seq<S>, n: int) {
    0 <= n < |calls| && n < |answers| && n + 1 < |trace| && step(trace[n], calls[n], answers[n], trace[n + 1])
  }

  /** Every state is sound, and each call with its answer leads from one state
      to the next. */
  ghost predicate IsRun<S(!new), C, A>(sound: S -> bool, step: (S, C, A, S) -> bool,
                                 calls: seq<C>, answers: seq<A>, trace: seq<S>) {
    && |answers| == |calls| && |trace| == |calls| + 1
    && (forall n {:trigger SoundAt(sound, trace, n)} | 0 <= n < |trace| :: SoundAt(sound, trace, n))
    && (forall n {:trigger StepAt(step, calls, answers, trace, n)} | 0 <= n < |calls| ::
          StepAt(step, calls, answers, trace, n))
  }

  lemma EmptyRun<S(!new), C, A>(sound: S -> bool, step: (S, C, A, S) -> bool, s: S)
    requires sound(s)
    ensures IsRun(sound, step, [], [], [s])
  {
    assert SoundAt(sound, [s], 0);
  }

  /** One more call after the first `n`. */
  lemma Extend<S(!new), C, A>(sound: S -> bool, step: (S, C, A, S) -> bool,
                        calls: seq<C>, n: nat, answers: seq<A>, trace: seq<S>, answer: A, s: S)
    requires n < |calls| && IsRun(sound, step, calls[..n], answers, trace)
    requires sound(s) && step(trace[n], calls[n], answer, s)
    ensures IsRun(sound, step, calls[..n + 1], answers + [answer], trace + [s])
  {
    var done, answers', trace' := calls[..n + 1], answers + [answer], trace + [s];
    forall m | 0 <= m < |trace'| ensures SoundAt(sound, trace', m) {
      if m < |trace| { assert SoundAt(sound, trace, m); }
    }
    forall m | 0 <= m < |done| ensures StepAt(step, done, answers', trace', m) {
      if m < n { assert StepAt(step, calls[..n], answers, trace, m); }
    }
  }

  /** A run written out. */
  lemma FiveCalls<S(!new), C, A>(sound: S -> bool, step: (S, C, A, S) -> bool,
                           calls: seq<C>, answers: seq<A>, trace: seq<S>)
    requires |calls| == |answers| == 5 && |trace| == 6
    requires sound(trace[0]) && sound(trace[1]) && sound(trace[2]) && sound(trace[3]) && sound(trace[4]) &&
             sound(trace[5])
    requires step(trace[0], calls[0], answers[0], trace[1]) && step(trace[1], calls[1], answers[1], trace[2])
    requires step(trace[2], calls[2], answers[2], trace[3]) && step(trace[3], calls[3], answers[3], trace[4])
    requires step(trace[4], calls[4], answers[4], trace[5])
    ensures IsRun(sound, step, calls, answers, trace)
  {
  }
}
