/**
 How the dealer pairs requests: `Dealer::handle_request` in
 dealer/renegade-dealer/src/dealer.rs. A job is known by its position in the order in which
 the jobs take the lock; its answer is what is sent on its response channel.

 Bodies that do not match make the handler panic with the lock held. The lock is then
 poisoned, and every later job panics on it without an answer.
 */
module DealerPairing {
  import opened Dealer

  type RequestId = string
  type PartyId = nat

  datatype Job = Job(id: RequestId, party: PartyId, request: DealerRequest)

  /** A response from a ready pair, or the duplicate-party error; both name the other job. */
  datatype Answer = Paired(partner: nat) | DuplicateParty(partner: nat)

  datatype State = State(open: map<RequestId, nat>, answers: map<nat, Answer>, poisoned: bool)

  class DealerQueue {
    var open: map<RequestId, nat>
    var answers: map<nat, Answer>
    var poisoned: bool
    var jobs: seq<Job>

    function Abs(): State
      reads this
    {
      State(open, answers, poisoned)
    }

    constructor ()
      ensures Abs() == State(map[], map[], false) && jobs == []
    {
      open, answers, poisoned, jobs := map[], map[], false, [];
    }

    method HandleRequest(job: Job)
      requires forall id :: id in open ==> open[id] < |jobs|
      modifies this
      ensures jobs == old(jobs) + [job]
      ensures Abs() == Handle(old(Abs()), jobs, |old(jobs)|)
    {
      var k := |jobs|;
      jobs := jobs + [job];
      if poisoned {
        return;
      }
      if job.id in open {
        var existing := open[job.id];
        open := open - {job.id};
        if jobs[existing].request != job.request {
          poisoned := true;
          return;
        }
        if jobs[existing].party == job.party {
          answers := answers[k := DuplicateParty(existing)];
          answers := answers[existing := DuplicateParty(k)];
          return;
        }
        answers := answers[existing := Paired(k)];
        answers := answers[k := Paired(existing)];
      } else {
        open := open[job.id := k];
      }
    }
  }

  /** The handler on values: job `k` takes the lock. */
  function Handle(s: State, jobs: seq<Job>, k: nat): State
    requires k < |jobs|
    requires forall id :: id in s.open ==> s.open[id] < |jobs|
  {
    var job := jobs[k];
    if s.poisoned then s
    else if job.id !in s.open then s.(open := s.open[job.id := k])
    else
      var i := s.open[job.id];
      var s' := s.(open := s.open - {job.id});
      if jobs[i].request != job.request then s'.(poisoned := true)
      else if jobs[i].party == job.party then s'.(answers := s.answers[i := DuplicateParty(k)][k := DuplicateParty(i)])
      else s'.(answers := s.answers[i := Paired(k)][k := Paired(i)])
  }

  /** The state after the first `n` jobs. */
  function Run(jobs: seq<Job>, n: nat): (s: State)
    requires n <= |jobs|
    ensures forall id :: id in s.open ==> s.open[id] < n
  {
    if n == 0 then State(map[], map[], false) else Handle(Run(jobs, n - 1), jobs, n - 1)
  }

  /** Whether an odd number of the first `n` jobs carry the id. */
  predicate Odd(jobs: seq<Job>, n: nat, id: RequestId)
    requires n <= |jobs|
  {
    n > 0 && (Odd(jobs, n - 1, id) != (jobs[n - 1].id == id))
  }

  /** Jobs `i < k` are the two of a pair: same id, none of that id between them, an even number before them. */
  ghost predicate Pair(jobs: seq<Job>, i: nat, k: nat) {
    k < |jobs| && LastOf(jobs, k, jobs[k].id, i)
  }

  /** Job `i` is the last of the first `n` with the id, and an even number of them came before it. */
  ghost predicate LastOf(jobs: seq<Job>, n: nat, id: RequestId, i: nat) {
    && i < n <= |jobs| && jobs[i].id == id && !Odd(jobs, i, id)
    && forall x :: i < x < n ==> jobs[x].id != id
  }

  ghost predicate Mismatched(jobs: seq<Job>, k: nat) {
    exists i: nat :: Pair(jobs, i, k) && jobs[i].request != jobs[k].request
  }

  function PairAnswer(jobs: seq<Job>, self: nat, other: nat): Answer
    requires self < |jobs| && other < |jobs|
  {
    if jobs[self].party == jobs[other].party then DuplicateParty(other) else Paired(other)
  }

  // ----------
  // | Parity |
  // ----------

  lemma {:induction false} LastMakesOdd(jobs: seq<Job>, n: nat, id: RequestId, i: nat)
    requires LastOf(jobs, n, id, i)
    ensures Odd(jobs, n, id)
  {
    if i + 1 < n {
      LastMakesOdd(jobs, n - 1, id, i);
    }
  }

  lemma LastIsUnique(jobs: seq<Job>, n: nat, id: RequestId, i: nat, j: nat)
    requires LastOf(jobs, n, id, i) && LastOf(jobs, n, id, j)
    ensures i == j
  {
  }

  /** A job belongs to one pair only. */
  lemma UniquePartner(jobs: seq<Job>, i: nat, k: nat, p: nat)
    requires Pair(jobs, i, k)
    ensures Pair(jobs, i, p) ==> p == k
    ensures Pair(jobs, p, k) ==> p == i
    ensures !Pair(jobs, p, i) && !Pair(jobs, k, p)
  {
    LastMakesOdd(jobs, k, jobs[k].id, i);
    if Pair(jobs, p, i) {
      LastMakesOdd(jobs, i, jobs[i].id, p);
    }
  }

  // -------------
  // | Invariant |
  // -------------

  /** An id is open iff an odd number of its jobs were handled, and then its last job is the one waiting. */
  ghost predicate IdOk(jobs: seq<Job>, n: nat, s: State, id: RequestId)
    requires n <= |jobs|
  {
    && (id in s.open <==> Odd(jobs, n, id))
    && (id in s.open ==> LastOf(jobs, n, id, s.open[id]))
  }

  ghost predicate Waiting(jobs: seq<Job>, s: State, k: nat) {
    k < |jobs| && jobs[k].id in s.open && s.open[jobs[k].id] == k
  }

  /** A handled job is either waiting or answered, and its answer is that of its pair. */
  ghost predicate JobOk(jobs: seq<Job>, n: nat, s: State, k: nat)
    requires n <= |jobs|
  {
    if k >= n then k !in s.answers
    else if Waiting(jobs, s, k) then k !in s.answers
    else k in s.answers && AnswerOk(jobs, n, k, s.answers[k])
  }

  ghost predicate AnswerOk(jobs: seq<Job>, n: nat, k: nat, a: Answer) {
    && k < n <= |jobs| && a.partner < n
    && (Pair(jobs, k, a.partner) || Pair(jobs, a.partner, k))
    && a == PairAnswer(jobs, k, a.partner)
  }

  ghost predicate Inv(jobs: seq<Job>, n: nat, s: State)
    requires n <= |jobs|
  {
    && !s.poisoned
    && (forall id :: IdOk(jobs, n, s, id))
    && (forall k: nat :: JobOk(jobs, n, s, k))
    && |s.answers| + |s.open| == n
  }

  /** Handling job `n` when its body matches: it waits, or it answers itself and the waiting one. */
  ghost predicate Handled(jobs: seq<Job>, n: nat, s: State, s': State) {
    && n < |jobs|
    && var id := jobs[n].id;
       if id !in s.open then s' == s.(open := s.open[id := n])
       else
         var i := s.open[id];
         && Pair(jobs, i, n) && s'.open == s.open - {id} && !s'.poisoned
         && s'.answers == s.answers[i := PairAnswer(jobs, i, n)][n := PairAnswer(jobs, n, i)]
  }

  lemma HandleCases(jobs: seq<Job>, n: nat, s: State)
    requires n < |jobs| && !s.poisoned && IdOk(jobs, n, s, jobs[n].id) && !Mismatched(jobs, n)
    requires forall id :: id in s.open ==> s.open[id] < |jobs|
    ensures Handled(jobs, n, s, Handle(s, jobs, n)) && !Handle(s, jobs, n).poisoned
  {
    if jobs[n].id in s.open {
      assert Pair(jobs, s.open[jobs[n].id], n);
    }
  }

  lemma IdStep(jobs: seq<Job>, n: nat, s: State, s': State, id: RequestId)
    requires Handled(jobs, n, s, s') && IdOk(jobs, n, s, id)
    ensures IdOk(jobs, n + 1, s', id)
  {
  }

  lemma JobStep(jobs: seq<Job>, n: nat, s: State, s': State, k: nat)
    requires Handled(jobs, n, s, s') && JobOk(jobs, n, s, k) && IdOk(jobs, n, s, jobs[n].id)
    ensures JobOk(jobs, n + 1, s', k)
    ensures k in s.answers ==> k in s'.answers && s'.answers[k] == s.answers[k]
  {
    var id := jobs[n].id;
    if k < n && !(id in s.open && k == s.open[id]) {
      assert Waiting(jobs, s, k) <==> Waiting(jobs, s', k);
    }
  }

  lemma SizesWhenWaiting(open: map<RequestId, nat>, id: RequestId, n: nat)
    requires id !in open
    ensures |open[id := n]| == |open| + 1
  {
    var o := open[id := n];
    assert o.Keys == open.Keys + {id} && |o| == |o.Keys| && |open| == |open.Keys|;
  }

  lemma SizesWhenAnswering(open: map<RequestId, nat>, answers: map<nat, Answer>, id: RequestId, i: nat, n: nat,
                           a: Answer, b: Answer)
    requires id in open && i !in answers && n !in answers && i != n
    ensures |open - {id}| == |open| - 1 && |answers[i := a][n := b]| == |answers| + 2
  {
    var o, a1 := open - {id}, answers[i := a];
    var a2 := a1[n := b];
    assert o.Keys == open.Keys - {id} && |o| == |o.Keys| && |open| == |open.Keys|;
    assert a1.Keys == answers.Keys + {i} && |a1| == |a1.Keys| && |answers| == |answers.Keys|;
    assert a2.Keys == a1.Keys + {n} && |a2| == |a2.Keys|;
  }

  lemma SizeStep(jobs: seq<Job>, n: nat, s: State)
    requires n < |jobs| && !Mismatched(jobs, n) && !s.poisoned
    requires IdOk(jobs, n, s, jobs[n].id) && JobOk(jobs, n, s, n)
    requires jobs[n].id in s.open ==> JobOk(jobs, n, s, s.open[jobs[n].id])
    requires forall id :: id in s.open ==> s.open[id] < |jobs|
    ensures var s' := Handle(s, jobs, n); |s'.answers| + |s'.open| == |s.answers| + |s.open| + 1
  {
    hide Odd;
    HandleCases(jobs, n, s);
    var id := jobs[n].id;
    if id in s.open {
      var i := s.open[id];
      assert Waiting(jobs, s, i);
      SizesWhenAnswering(s.open, s.answers, id, i, n, PairAnswer(jobs, i, n), PairAnswer(jobs, n, i));
    } else {
      SizesWhenWaiting(s.open, id, n);
    }
  }

  lemma HandleKeepsInv(jobs: seq<Job>, n: nat, s: State)
    requires n < |jobs| && Inv(jobs, n, s) && !Mismatched(jobs, n)
    requires forall id :: id in s.open ==> s.open[id] < |jobs|
    ensures Inv(jobs, n + 1, Handle(s, jobs, n))
    ensures forall k :: k in s.answers ==>
              k in Handle(s, jobs, n).answers && Handle(s, jobs, n).answers[k] == s.answers[k]
  {
    hide Handle, Handled, IdOk, JobOk, Mismatched;
    assert IdOk(jobs, n, s, jobs[n].id) && JobOk(jobs, n, s, n);
    HandleCases(jobs, n, s);
    SizeStep(jobs, n, s);
    var s', n' := Handle(s, jobs, n), n + 1;
    forall id ensures IdOk(jobs, n', s', id) {
      assert IdOk(jobs, n, s, id);
      IdStep(jobs, n, s, s', id);
    }
    forall k: nat
      ensures JobOk(jobs, n', s', k)
      ensures k in s.answers ==> k in s'.answers && s'.answers[k] == s.answers[k]
    {
      assert JobOk(jobs, n, s, k);
      JobStep(jobs, n, s, s', k);
    }
  }

  /** As long as no pair has mismatched bodies, the bookkeeping is exact. */
  lemma {:induction false} RunKeepsInv(jobs: seq<Job>, n: nat)
    requires n <= |jobs| && forall k: nat :: k < n ==> !Mismatched(jobs, k)
    ensures Inv(jobs, n, Run(jobs, n))
  {
    hide Handle;
    if n > 0 {
      RunKeepsInv(jobs, n - 1);
      HandleKeepsInv(jobs, n - 1, Run(jobs, n - 1));
    } else {
      assert Run(jobs, 0) == State(map[], map[], false);
    }
  }

  // ------------
  // | Theorems |
  // ------------

  /** An id is open iff an odd number of its jobs were handled; answered plus open is handled. */
  lemma OpenIffOdd(jobs: seq<Job>, n: nat, id: RequestId)
    requires n <= |jobs| && forall k: nat :: k < n ==> !Mismatched(jobs, k)
    ensures id in Run(jobs, n).open <==> Odd(jobs, n, id)
    ensures |Run(jobs, n).answers| + |Run(jobs, n).open| == n
  {
    hide Run;
    RunKeepsInv(jobs, n);
    assert IdOk(jobs, n, Run(jobs, n), id);
  }

  /**
   A job is answered exactly when both jobs of its pair have been handled. Its partner gets the
   matching answer, and both succeed iff the parties differ.
   */
  lemma AnsweredIffPaired(jobs: seq<Job>, n: nat, i: nat, k: nat)
    requires n <= |jobs| && (forall x: nat :: x < n ==> !Mismatched(jobs, x)) && Pair(jobs, i, k)
    ensures var a := Run(jobs, n).answers;
            && (i in a <==> k < n) && (k in a <==> k < n)
            && (k < n ==> a[i] == PairAnswer(jobs, i, k) && a[k] == PairAnswer(jobs, k, i))
  {
    hide Run, Odd;
    RunKeepsInv(jobs, n);
    var s, id := Run(jobs, n), jobs[i].id;
    assert JobOk(jobs, n, s, i) && JobOk(jobs, n, s, k) && IdOk(jobs, n, s, id);
    if k < n {
      LastMakesOdd(jobs, k, id, i);
      assert !Waiting(jobs, s, i) && !Waiting(jobs, s, k);
      UniquePartner(jobs, i, k, s.answers[i].partner);
      UniquePartner(jobs, i, k, s.answers[k].partner);
    } else if i < n {
      assert LastOf(jobs, n, id, i);
      LastMakesOdd(jobs, n, id, i);
      LastIsUnique(jobs, n, id, i, s.open[id]);
    }
  }

  /** Nothing else is ever answered: each answer belongs to a pair, and the partner exists. */
  lemma AnswersAreOfPairs(jobs: seq<Job>, n: nat, k: nat)
    requires n <= |jobs| && (forall x: nat :: x < n ==> !Mismatched(jobs, x)) && k in Run(jobs, n).answers
    ensures AnswerOk(jobs, n, k, Run(jobs, n).answers[k])
  {
    hide Run, Odd;
    RunKeepsInv(jobs, n);
    assert JobOk(jobs, n, Run(jobs, n), k);
  }

  lemma PoisonStays(jobs: seq<Job>, n: nat, s: State)
    requires n < |jobs| && s.poisoned && forall id :: id in s.open ==> s.open[id] < |jobs|
    ensures Handle(s, jobs, n) == s
  {
  }

  lemma MismatchPoisons(jobs: seq<Job>, n: nat, s: State)
    requires n < |jobs| && IdOk(jobs, n, s, jobs[n].id) && Mismatched(jobs, n)
    requires forall id :: id in s.open ==> s.open[id] < |jobs|
    ensures Handle(s, jobs, n).poisoned
  {
    var i: nat :| Pair(jobs, i, n) && jobs[i].request != jobs[n].request;
    LastMakesOdd(jobs, n, jobs[n].id, i);
    LastIsUnique(jobs, n, jobs[n].id, i, s.open[jobs[n].id]);
  }

  lemma PoisonStep(jobs: seq<Job>, n: nat, s: State)
    requires n < |jobs| && (s.poisoned || Inv(jobs, n, s)) && forall id :: id in s.open ==> s.open[id] < |jobs|
    ensures Handle(s, jobs, n).poisoned <==> s.poisoned || Mismatched(jobs, n)
  {
    hide Handle, IdOk, JobOk, Mismatched;
    if s.poisoned {
      PoisonStays(jobs, n, s);
    } else if Mismatched(jobs, n) {
      assert IdOk(jobs, n, s, jobs[n].id);
      MismatchPoisons(jobs, n, s);
    } else {
      HandleKeepsInv(jobs, n, s);
    }
  }

  /** The lock is poisoned iff some pair of the jobs handled so far carries different bodies. */
  lemma {:induction false} PoisonedIffMismatch(jobs: seq<Job>, n: nat)
    requires n <= |jobs|
    ensures Run(jobs, n).poisoned <==> exists k: nat :: k < n && Mismatched(jobs, k)
  {
    hide Handle, Inv, Mismatched;
    if n > 0 {
      PoisonedIffMismatch(jobs, n - 1);
      if !Run(jobs, n - 1).poisoned {
        RunKeepsInv(jobs, n - 1);
      }
      PoisonStep(jobs, n - 1, Run(jobs, n - 1));
    }
  }

  lemma MismatchOnlyPoisons(jobs: seq<Job>, n: nat, s: State)
    requires n < |jobs| && !s.poisoned && Handle.requires(s, jobs, n) && Handle(s, jobs, n).poisoned
    ensures Handle(s, jobs, n) == s.(open := s.open - {jobs[n].id}, poisoned := true)
  {
  }

  /** The first mismatched pair freezes the dealer: it loses its open job, and nothing changes or is answered again. */
  lemma {:induction false} FirstMismatchFreezes(jobs: seq<Job>, m: nat, n: nat)
    requires m < n <= |jobs| && Mismatched(jobs, m) && forall k: nat :: k < m ==> !Mismatched(jobs, k)
    ensures Run(jobs, n) == Run(jobs, m).(open := Run(jobs, m).open - {jobs[m].id}, poisoned := true)
  {
    hide Handle, Mismatched;
    if n == m + 1 {
      PoisonedIffMismatch(jobs, m);
      PoisonedIffMismatch(jobs, n);
      MismatchOnlyPoisons(jobs, m, Run(jobs, m));
    } else {
      FirstMismatchFreezes(jobs, m, n - 1);
      PoisonStays(jobs, n - 1, Run(jobs, n - 1));
    }
  }

  /** An answer, once sent, is never sent again or changed, mismatches or not. */
  lemma {:induction false} AnsweredAtMostOnce(jobs: seq<Job>, m: nat, n: nat, k: nat)
    requires m <= n <= |jobs| && k in Run(jobs, m).answers
    ensures k in Run(jobs, n).answers && Run(jobs, n).answers[k] == Run(jobs, m).answers[k]
  {
    hide Handle, Mismatched;
    if m < n {
      AnsweredAtMostOnce(jobs, m, n - 1, k);
      var s := Run(jobs, n - 1);
      PoisonedIffMismatch(jobs, n - 1);
      if s.poisoned {
        PoisonStays(jobs, n - 1, s);
      } else if Mismatched(jobs, n - 1) {
        PoisonedIffMismatch(jobs, n);
        MismatchOnlyPoisons(jobs, n - 1, s);
      } else {
        RunKeepsInv(jobs, n - 1);
        HandleKeepsInv(jobs, n - 1, s);
      }
    }
  }
}
