/** The mint queue of src/verify.ts:37-41 and :257-303: paid payers wait in
    `x402ProcessPool`, admin signers rotate through `Settle_ContractPool`,
    and every completed mint is prepended to this module's own
    `ReflashData` list (a different array from the ledger's window).

    One call of `process_x402` is `DrainStep`; its outcome on chain (a mint
    whose receipt arrives with a transaction hash, or a failure) and the
    timestamp are inputs. `Drain` follows the one-second retries the step
    schedules. */
module MintQueue {
  import opened Common
  import opened Types
  import opened Units

  /** An admin wallet bound to the SETTLE contract. */
  datatype Signer = Signer(address: string)

  /** What `mint` followed by `wait` gives: a receipt for transaction
      `txHash` (stamped `timestamp`), or a thrown error. */
  datatype MintOutcome = Minted(txHash: string, timestamp: string) | MintFailed

  datatype QueueState = QueueState(jobs: seq<Job>, signers: seq<Signer>, recent: seq<Record>)

  /** The state after one call and whether it scheduled another. */
  datatype StepResult = StepResult(state: QueueState, retry: bool)

  /** The entry prepended for a completed mint: the transaction hash, the
      payer, the SETTLE amount recorded (verify.ts:277-278) and the USDC
      amount paid. */
  function MintRecord(job: Job, txHash: string, timestamp: string, settleAtomic: nat): Record {
    Record(txHash, job.wallet, DecimalString(MintedReward(settleAtomic)), job.settle, timestamp)
  }

  /** The entry is keyed by the mint transaction, names the payer and the
      USDC amount as queued, and its SETTLE text reads back as the reward
      for that amount. */
  lemma MintRecordReadsBack(job: Job, txHash: string, timestamp: string, settleAtomic: nat)
    ensures var r := MintRecord(job, txHash, timestamp, settleAtomic);
      && r.hash == txHash && r.wallet == job.wallet && r.usdc == job.settle
      && ParseBigInt(r.settle) == Some(MintedReward(settleAtomic))
  {
    ParseBigIntOfDecimal(MintedReward(settleAtomic));
  }

  /** The head job is minted and leaves the queue: a signer is available,
      the mint succeeds, and `BigInt(job.settle)` does not throw. */
  predicate Completes(q: QueueState, outcome: MintOutcome) {
    q.jobs != [] && q.signers != [] && outcome.Minted? && ParseBigInt(q.jobs[0].settle).Some?
  }

  /** One call of `process_x402`. */
  function DrainStep(q: QueueState, outcome: MintOutcome): (r: StepResult)
    // no job, or no signer: nothing changes and no retry is scheduled
    ensures q.jobs == [] || q.signers == [] ==> r == StepResult(q, false)
    // otherwise the head signer goes to the back and a retry is scheduled
    ensures q.jobs != [] && q.signers != [] ==>
      r.retry && r.state.signers == q.signers[1..] + [q.signers[0]]
    ensures multiset(r.state.signers) == multiset(q.signers)
    // a completed mint removes the head job and prepends its entry
    ensures Completes(q, outcome) ==>
      && r.state.jobs == q.jobs[1..]
      && r.state.recent == [MintRecord(q.jobs[0], outcome.txHash, outcome.timestamp,
                                       ParseBigInt(q.jobs[0].settle).value)] + q.recent
    // anything else leaves the jobs and the entries as they were
    ensures !Completes(q, outcome) ==> r.state.jobs == q.jobs && r.state.recent == q.recent
    // no job is lost or duplicated: it is either queued or recorded
    ensures |r.state.jobs| + |r.state.recent| == |q.jobs| + |q.recent|
  {
    if q.jobs == [] then StepResult(q, false)
    else if q.signers == [] then StepResult(q, false)
    else
      var job := q.jobs[0];
      var signers := q.signers[1..] + [q.signers[0]];
      assert q.signers == [q.signers[0]] + q.signers[1..];
      var next :=
        if Completes(q, outcome) then
          QueueState(q.jobs[1..], signers,
            [MintRecord(job, outcome.txHash, outcome.timestamp, ParseBigInt(job.settle).value)] + q.recent)
        else
          QueueState(q.jobs, signers, q.recent);
      StepResult(next, true)
  }

  /** Run the step, then each scheduled retry, taking the next outcome for
      each call; stop when a call schedules nothing or the outcomes run out. */
  function Drain(q: QueueState, outcomes: seq<MintOutcome>): (d: QueueState)
    // jobs only ever leave from the front of the queue, and entries are only
    // ever put in front of the old ones
    ensures IsSuffix(d.jobs, q.jobs) && IsSuffix(q.recent, d.recent)
    decreases |outcomes|
  {
    if outcomes == [] then q
    else
      var r := DrainStep(q, outcomes[0]);
      StepKeepsSuffixes(q, outcomes[0]);
      if r.retry then
        var d := Drain(r.state, outcomes[1..]);
        SuffixTransitive(d.jobs, r.state.jobs, q.jobs);
        SuffixTransitive(q.recent, r.state.recent, d.recent);
        d
      else r.state
  }

  predicate IsSuffix<T(==)>(a: seq<T>, b: seq<T>) {
    |a| <= |b| && b[|b| - |a|..] == a
  }

  lemma SuffixTransitive<T>(a: seq<T>, b: seq<T>, c: seq<T>)
    requires IsSuffix(a, b) && IsSuffix(b, c)
    ensures IsSuffix(a, c)
  {
    assert c[|c| - |a|..] == c[|c| - |b|..][|b| - |a|..];
  }

  lemma StepKeepsSuffixes(q: QueueState, outcome: MintOutcome)
    ensures IsSuffix(DrainStep(q, outcome).state.jobs, q.jobs)
    ensures IsSuffix(q.recent, DrainStep(q, outcome).state.recent)
  {
    var r := DrainStep(q, outcome);
    assert q.jobs[|q.jobs| - |q.jobs|..] == q.jobs;
    assert r.state.recent[|r.state.recent| - |q.recent|..] == q.recent by {
      if Completes(q, outcome) {
        assert |r.state.recent| - |q.recent| == 1;
      }
    }
  }

  /** `entries`, newest first, are the entries of `jobs` minted in queue
      order: the last entry belongs to the first job. */
  predicate RecordsJobs(entries: seq<Record>, jobs: seq<Job>) {
    && |entries| == |jobs|
    && forall i :: 0 <= i < |jobs| ==>
         entries[|jobs| - 1 - i].wallet == jobs[i].wallet && entries[|jobs| - 1 - i].usdc == jobs[i].settle
  }

  /** From queue `jobs` and entries `recent` to `jobsAfter` and `recentAfter`,
      no job was lost or duplicated: the k jobs that left are the first k,
      and the k entries put in front of the old ones are theirs. */
  predicate Conserved(jobs: seq<Job>, recent: seq<Record>, jobsAfter: seq<Job>, recentAfter: seq<Record>) {
    var k := |jobs| - |jobsAfter|;
    && 0 <= k
    && jobsAfter == jobs[k..]
    && |recentAfter| == k + |recent|
    && recentAfter[k..] == recent
    && RecordsJobs(recentAfter[..k], jobs[..k])
  }

  /** Draining never loses or duplicates a job and never loses a signer. */
  lemma {:induction false} DrainConserves(q: QueueState, outcomes: seq<MintOutcome>)
    ensures Conserved(q.jobs, q.recent, Drain(q, outcomes).jobs, Drain(q, outcomes).recent)
    ensures multiset(Drain(q, outcomes).signers) == multiset(q.signers)
    decreases |outcomes|
  {
    if outcomes == [] {
      ConservedNothing(q.jobs, q.recent);
    } else {
      var r := DrainStep(q, outcomes[0]);
      if !r.retry {
        ConservedNothing(q.jobs, q.recent);
      } else {
        var d := Drain(r.state, outcomes[1..]);
        assert Drain(q, outcomes) == d;
        DrainConserves(r.state, outcomes[1..]);
        if Completes(q, outcomes[0]) {
          ConservesAfterMint(q.jobs, q.recent, r.state.jobs, r.state.recent, d.jobs, d.recent);
        }
      }
    }
  }

  lemma ConservedNothing(jobs: seq<Job>, recent: seq<Record>)
    ensures Conserved(jobs, recent, jobs, recent)
  {
    assert jobs[0..] == jobs && recent[0..] == recent;
  }

  /** The shift behind `DrainConserves`: a first call that minted the head
      job, followed by a drain that conserves from the state it left. */
  lemma ConservesAfterMint(jobs: seq<Job>, recent: seq<Record>, jobs1: seq<Job>, recent1: seq<Record>,
                           jobsAfter: seq<Job>, recentAfter: seq<Record>)
    requires jobs != [] && jobs1 == jobs[1..]
    requires recent1 != [] && recent1[1..] == recent
    requires recent1[0].wallet == jobs[0].wallet && recent1[0].usdc == jobs[0].settle
    requires Conserved(jobs1, recent1, jobsAfter, recentAfter)
    ensures Conserved(jobs, recent, jobsAfter, recentAfter)
  {
    var k := |jobs| - |jobsAfter|;
    assert jobsAfter == jobs[k..];
    assert recentAfter[k - 1] == recent1[0] && recentAfter[k..] == recent1[1..];
    assert recentAfter[..k] == recentAfter[..k - 1] + [recent1[0]];
    assert jobs[..k] == [jobs[0]] + jobs1[..k - 1];
    RecordsJobsExtend(recentAfter[..k - 1], jobs1[..k - 1], recent1[0], jobs[0]);
  }

  /** An older job's entry goes beneath the entries of the jobs after it. */
  lemma RecordsJobsExtend(entries: seq<Record>, jobs: seq<Job>, e: Record, job: Job)
    requires RecordsJobs(entries, jobs)
    requires e.wallet == job.wallet && e.usdc == job.settle
    ensures RecordsJobs(entries + [e], [job] + jobs)
  {
    var es := entries + [e];
    var js := [job] + jobs;
    forall i | 0 <= i < |js|
      ensures es[|js| - 1 - i].wallet == js[i].wallet && es[|js| - 1 - i].usdc == js[i].settle
    {
      if i > 0 {
        assert js[i] == jobs[i - 1];
        assert es[|js| - 1 - i] == entries[|jobs| - 1 - (i - 1)];
      }
    }
  }

  /** `recent` after minting `jobs` in order with `outcomes`: each job's entry
      is prepended in turn, so the last one minted comes first. */
  function PrependMinted(jobs: seq<Job>, outcomes: seq<MintOutcome>, recent: seq<Record>): (r: seq<Record>)
    requires |outcomes| >= |jobs|
    requires forall i :: 0 <= i < |jobs| ==> outcomes[i].Minted? && ParseBigInt(jobs[i].settle).Some?
    ensures |r| == |jobs| + |recent|
    decreases |jobs|
  {
    if jobs == [] then recent
    else
      PrependMinted(jobs[1..], outcomes[1..],
        [MintRecord(jobs[0], outcomes[0].txHash, outcomes[0].timestamp, ParseBigInt(jobs[0].settle).value)] + recent)
  }

  /** The condition under which every call of a drain mints: a signer, one
      successful mint per call, and jobs whose amounts parse. */
  predicate AllMint(q: QueueState, outcomes: seq<MintOutcome>) {
    && q.signers != []
    && |outcomes| <= |q.jobs|
    && (forall i :: 0 <= i < |outcomes| ==> outcomes[i].Minted?)
    && (forall i :: 0 <= i < |q.jobs| ==> ParseBigInt(q.jobs[i].settle).Some?)
  }

  /** The first call of such a drain mints the head job, and the rest of the
      drain, from the state `next` it leaves, again mints on every call. */
  lemma AllMintStep(q: QueueState, outcomes: seq<MintOutcome>) returns (next: QueueState)
    requires AllMint(q, outcomes) && outcomes != []
    ensures Drain(q, outcomes) == Drain(next, outcomes[1..])
    ensures next.jobs == q.jobs[1..]
    ensures next.recent == [MintRecord(q.jobs[0], outcomes[0].txHash, outcomes[0].timestamp,
                                       ParseBigInt(q.jobs[0].settle).value)] + q.recent
    ensures AllMint(next, outcomes[1..])
  {
    assert Completes(q, outcomes[0]);
    next := DrainStep(q, outcomes[0]).state;
    assert forall i :: 0 <= i < |outcomes[1..]| ==> outcomes[1..][i] == outcomes[i + 1];
    assert forall i :: 0 <= i < |next.jobs| ==> next.jobs[i] == q.jobs[i + 1];
  }

  /** With a signer available and every mint succeeding, each call mints the
      next job in queue order: after k outcomes the first k jobs are gone. */
  lemma {:induction false} DrainAllMintedJobs(q: QueueState, outcomes: seq<MintOutcome>)
    requires AllMint(q, outcomes)
    ensures Drain(q, outcomes).jobs == q.jobs[|outcomes|..]
    decreases |outcomes|
  {
    if outcomes != [] {
      var next := AllMintStep(q, outcomes);
      DrainAllMintedJobs(next, outcomes[1..]);
      assert next.jobs[|outcomes| - 1..] == q.jobs[|outcomes|..];
    }
  }

  lemma PrependMintedFirst(jobs: seq<Job>, outcomes: seq<MintOutcome>, recent: seq<Record>)
    requires 0 < |jobs| <= |outcomes|
    requires forall i :: 0 <= i < |jobs| ==> outcomes[i].Minted? && ParseBigInt(jobs[i].settle).Some?
    ensures PrependMinted(jobs, outcomes, recent)
         == PrependMinted(jobs[1..], outcomes[1..],
              [MintRecord(jobs[0], outcomes[0].txHash, outcomes[0].timestamp, ParseBigInt(jobs[0].settle).value)] + recent)
  {
  }

  /** ... and their entries are prepended in minting order. */
  lemma {:induction false} DrainAllMintedRecent(q: QueueState, outcomes: seq<MintOutcome>)
    requires AllMint(q, outcomes)
    ensures Drain(q, outcomes).recent == PrependMinted(q.jobs[..|outcomes|], outcomes, q.recent)
    decreases |outcomes|
  {
    if outcomes != [] {
      var next := AllMintStep(q, outcomes);
      DrainAllMintedRecent(next, outcomes[1..]);
      PrependMintedShift(q, outcomes, next);
    }
  }

  /** The entries still to be prepended after the first call are those of the
      remaining jobs, on top of the entry that call prepended. */
  lemma PrependMintedShift(q: QueueState, outcomes: seq<MintOutcome>, next: QueueState)
    requires AllMint(q, outcomes) && outcomes != []
    requires next.jobs == q.jobs[1..]
    requires next.recent == [MintRecord(q.jobs[0], outcomes[0].txHash, outcomes[0].timestamp,
                                        ParseBigInt(q.jobs[0].settle).value)] + q.recent
    requires AllMint(next, outcomes[1..])
    ensures PrependMinted(q.jobs[..|outcomes|], outcomes, q.recent)
         == PrependMinted(next.jobs[..|outcomes| - 1], outcomes[1..], next.recent)
  {
    var done := q.jobs[..|outcomes|];
    assert done[1..] == next.jobs[..|outcomes| - 1] && done[0] == q.jobs[0];
    PrependMintedFirst(done, outcomes, q.recent);
  }

  /** A failed mint keeps the job at the head of the queue, so it is the one
      the retry mints. */
  lemma FailedMintIsRetriedFirst(q: QueueState, txHash: string, timestamp: string)
    requires q.jobs != [] && q.signers != []
    requires ParseBigInt(q.jobs[0].settle).Some?
    ensures var after := Drain(q, [MintFailed, Minted(txHash, timestamp)]);
      && after.jobs == q.jobs[1..]
      && after.recent == [MintRecord(q.jobs[0], txHash, timestamp, ParseBigInt(q.jobs[0].settle).value)] + q.recent
  {
    var os := [MintFailed, Minted(txHash, timestamp)];
    var r1 := DrainStep(q, MintFailed);
    assert r1.retry && r1.state.jobs == q.jobs && r1.state.signers != [];
    assert os[1..] == [Minted(txHash, timestamp)];
    assert Drain(q, os) == Drain(r1.state, [Minted(txHash, timestamp)]);
    var r2 := DrainStep(r1.state, Minted(txHash, timestamp));
    assert Completes(r1.state, Minted(txHash, timestamp));
    assert Drain(r1.state, [Minted(txHash, timestamp)]) == Drain(r2.state, []);
  }

  /** The entry of the job a paid request enqueues records 7 SETTLE
      (7 * 10^18 units). */
  lemma PaidJobRecordsSevenSettle(wallet: string, txHash: string, timestamp: string)
    ensures ParseBigInt("1000") == Some(1000)
    ensures MintRecord(Job(wallet, "1000"), txHash, timestamp, 1000).settle
         == DecimalString(7 * 1_000_000_000_000_000_000)
  {
    assert DigitsValue("1000") == 1000 by {
      assert "1000"[..3] == "100";
      assert "100"[..2] == "10";
      assert "10"[..1] == "1";
    }
  }

  /** The queue and the signer ring, updated in place. */
  class MintService {
    var jobs: seq<Job>
    var signers: seq<Signer>
    var recent: seq<Record>

    function State(): QueueState
      reads this
    {
      QueueState(jobs, signers, recent)
    }

    constructor (pool: seq<Signer>)
      ensures State() == QueueState([], pool, [])
    {
      jobs := [];
      signers := pool;
      recent := [];
    }

    /** `x402ProcessPool.push(job)`. */
    method Enqueue(job: Job)
      modifies this
      ensures State() == old(State()).(jobs := old(jobs) + [job])
    {
      jobs := jobs + [job];
    }

    /** One call of `process_x402`; `retry` says whether it schedules another. */
    method Step(outcome: MintOutcome) returns (retry: bool)
      modifies this
      ensures StepResult(State(), retry) == DrainStep(old(State()), outcome)
    {
      if |jobs| == 0 {
        return false;
      }
      var job := jobs[0];
      jobs := jobs[1..];
      if |signers| == 0 {
        jobs := [job] + jobs;
        return false;
      }
      var signer := signers[0];
      signers := signers[1..];
      match outcome {
        case Minted(txHash, timestamp) =>
          match ParseBigInt(job.settle) {
            case Some(n) =>
              recent := [MintRecord(job, txHash, timestamp, n)] + recent;
            case None =>
              jobs := [job] + jobs;
          }
        case MintFailed =>
          jobs := [job] + jobs;
      }
      signers := signers + [signer];
      retry := true;
    }
  }
}
