/**
 The query: range filter, bloom filter, binary search, over all chunks at once.

 Every chunk has one outstanding fetch at a time and waits for it; which reply arrives next is up
 to the schedule. What happens on an arrival runs without interruption.
 */
module Reader {
  import opened Wrappers
  import opened Sequences
  import opened Bytes
  import opened Bloom
  import opened Chunk

  datatype BlockRange = BlockRange(first: nat, last: nat)
  datatype Cid = Cid(id: nat)
  datatype ChunkRef = ChunkRef(range: BlockRange, bloomHash: Cid, indexHash: Cid)
  datatype ChunkFailure = ChunkFailure(range: BlockRange, cid: Cid, error: ReadError)

  datatype Progress = Progress(
    chunksTotal: nat,
    bloomsFetched: nat,
    hits: nat,
    chunksFetched: nat,
    appearancesFound: nat,
    bytesFetched: nat)

  /** A chunk, the two files published under its identifiers, and what the gateway will reply. */
  datatype Job = Job(
    chunk: ChunkRef,
    bloomFile: File,
    indexFile: File,
    bloomReply: Result<File, ReadError>,
    indexReply: Result<File, ReadError>)

  datatype Query = Query(address: Address, blockRange: Option<BlockRange>, jobs: seq<Job>)

  datatype Outcome = BloomNegative | Decoded | BloomFailed | IndexFailed
  datatype Pc = AwaitBloom | AwaitIndex | Done(outcome: Outcome)

  datatype QueryState = QueryState(
    pcs: seq<Pc>,
    progress: Progress,
    appearances: seq<Appearance>,
    failures: seq<ChunkFailure>)

  predicate RangesOverlap(a: BlockRange, b: BlockRange) {
    a.first <= b.last && b.first <= a.last
  }

  predicate InRange(a: Appearance, range: BlockRange) {
    a.blockNumber >= range.first && a.blockNumber <= range.last
  }

  predicate AppearanceAtMost(a: Appearance, b: Appearance) {
    a.blockNumber < b.blockNumber
    || (a.blockNumber == b.blockNumber && a.transactionIndex <= b.transactionIndex)
  }

  /** The appearances the caller asked for. */
  function Keep(found: seq<Appearance>, range: Option<BlockRange>): seq<Appearance> {
    if found == [] || range.None? then found
    else if InRange(found[0], range.value) then [found[0]] + Keep(found[1..], range)
    else Keep(found[1..], range)
  }

  function InScope(jobs: seq<Job>, range: Option<BlockRange>): seq<Job> {
    if jobs == [] then []
    else
      var rest, last := InScope(jobs[..|jobs| - 1], range), jobs[|jobs| - 1];
      if range.None? || RangesOverlap(last.chunk.range, range.value) then rest + [last] else rest
  }

  // ----- what an arrival does -----

  function Fail(st: QueryState, i: nat, outcome: Outcome, failure: ChunkFailure, bytes: nat): QueryState
    requires i < |st.pcs|
  {
    st.(
    pcs := st.pcs[i := Done(outcome)],
    failures := st.failures + [failure],
    progress := st.progress.(bytesFetched := st.progress.bytesFetched + bytes))
  }

  function OnBloom(q: Query, st: QueryState, i: nat): QueryState
    requires i < |st.pcs| == |q.jobs|
  {
    var job := q.jobs[i];
    match job.bloomReply
    case Err(e) => Fail(st, i, BloomFailed, ChunkFailure(job.chunk.range, job.chunk.bloomHash, e), 0)
    case Ok(bytes) =>
      match ParseBloom(bytes)
      case Err(e) => Fail(st, i, BloomFailed, ChunkFailure(job.chunk.range, job.chunk.bloomHash, e), 0)
      case Ok(bloom) =>
        var p := st.progress.(
          bloomsFetched := st.progress.bloomsFetched + 1,
          bytesFetched := st.progress.bytesFetched + |bytes|);
        if Covers(bloom, q.address)
        then st.(pcs := st.pcs[i := AwaitIndex], progress := p.(hits := p.hits + 1))
        else st.(pcs := st.pcs[i := Done(BloomNegative)], progress := p)
  }

  function OnIndex(q: Query, st: QueryState, i: nat): QueryState
    requires i < |st.pcs| == |q.jobs|
  {
    var job := q.jobs[i];
    match job.indexReply
    case Err(e) => Fail(st, i, IndexFailed, ChunkFailure(job.chunk.range, job.chunk.indexHash, e), 0)
    case Ok(bytes) =>
      match Appearances(bytes, q.address)
      case Err(e) =>
        Fail(st, i, IndexFailed, ChunkFailure(job.chunk.range, job.chunk.indexHash, e), |bytes|)
      case Ok(found) =>
        var kept := Keep(found, q.blockRange);
        st.(
        pcs := st.pcs[i := Done(Decoded)],
        appearances := st.appearances + kept,
        progress := st.progress.(
          bytesFetched := st.progress.bytesFetched + |bytes|,
          chunksFetched := st.progress.chunksFetched + 1,
          appearancesFound := st.progress.appearancesFound + |kept|))
  }

  /** Chunk `i`'s outstanding reply arrives; a finished chunk has none. */
  function Step(q: Query, st: QueryState, i: nat): QueryState
    requires i < |st.pcs| == |q.jobs|
  {
    match st.pcs[i]
    case AwaitBloom => OnBloom(q, st, i)
    case AwaitIndex => OnIndex(q, st, i)
    case Done(_) => st
  }

  function Start(q: Query): QueryState {
    QueryState(seq(|q.jobs|, i => AwaitBloom), Progress(|q.jobs|, 0, 0, 0, 0, 0), [], [])
  }

  predicate Complete(st: QueryState) {
    forall i | 0 <= i < |st.pcs| :: st.pcs[i].Done?
  }

  // ----- bookkeeping: the totals are the sum of what each chunk has done so far -----

  datatype Tally = Tally(
    blooms: nat,
    bloomFailures: nat,
    hits: nat,
    decoded: nat,
    indexFailures: nat,
    bytes: nat,
    appearances: multiset<Appearance>,
    failures: multiset<ChunkFailure>)

  const ZERO: Tally := Tally(0, 0, 0, 0, 0, 0, multiset{}, multiset{})

  function Add(a: Tally, b: Tally): Tally {
    Tally(
      a.blooms + b.blooms, a.bloomFailures + b.bloomFailures, a.hits + b.hits, a.decoded + b.decoded,
      a.indexFailures + b.indexFailures, a.bytes + b.bytes,
      a.appearances + b.appearances, a.failures + b.failures)
  }

  function ReplySize(r: Result<File, ReadError>): nat {
    match r
    case Ok(bytes) => |bytes|
    case Err(_) => 0
  }

  function BloomError(job: Job): Option<ReadError> {
    match job.bloomReply
    case Err(e) => Some(e)
    case Ok(bytes) => match ParseBloom(bytes) case Err(e) => Some(e) case Ok(_) => None
  }

  function IndexError(q: Query, job: Job): Option<ReadError> {
    match job.indexReply
    case Err(e) => Some(e)
    case Ok(bytes) => match Appearances(bytes, q.address) case Err(e) => Some(e) case Ok(_) => None
  }

  predicate BloomHit(q: Query, job: Job) {
    BloomError(job).None? && Covers(ParseBloom(job.bloomReply.value).value, q.address)
  }

  /** How a chunk ends, decided by its replies alone. */
  function Verdict(q: Query, job: Job): Outcome {
    if BloomError(job).Some? then BloomFailed
    else if !BloomHit(q, job) then BloomNegative
    else if IndexError(q, job).Some? then IndexFailed
    else Decoded
  }

  function FoundIn(q: Query, job: Job): seq<Appearance>
    requires IndexError(q, job).None?
  {
    Keep(Appearances(job.indexReply.value, q.address).value, q.blockRange)
  }

  /** What a chunk has contributed when it stands at `pc`. */
  function Share(q: Query, job: Job, pc: Pc): Tally {
    match pc
    case AwaitBloom => ZERO
    case AwaitIndex => ZERO.(blooms := 1, hits := 1, bytes := ReplySize(job.bloomReply))
    case Done(BloomNegative) => ZERO.(blooms := 1, bytes := ReplySize(job.bloomReply))
    case Done(BloomFailed) =>
      ZERO.(bloomFailures := 1,
      failures := multiset{ChunkFailure(job.chunk.range, job.chunk.bloomHash, BloomError(job).GetOr(FetchFailed))})
    case Done(IndexFailed) =>
      ZERO.(blooms := 1, hits := 1, indexFailures := 1,
      bytes := ReplySize(job.bloomReply) + ReplySize(job.indexReply),
      failures := multiset{ChunkFailure(job.chunk.range, job.chunk.indexHash, IndexError(q, job).GetOr(FetchFailed))})
    case Done(Decoded) =>
      ZERO.(blooms := 1, hits := 1, decoded := 1,
      bytes := ReplySize(job.bloomReply) + ReplySize(job.indexReply),
      appearances := if IndexError(q, job).None? then multiset(FoundIn(q, job)) else multiset{})
  }

  function Total(q: Query, pcs: seq<Pc>, n: nat): Tally
    requires n <= |pcs| == |q.jobs|
  {
    if n == 0 then ZERO else Add(Total(q, pcs, n - 1), Share(q, q.jobs[n - 1], pcs[n - 1]))
  }

  predicate Plausible(q: Query, job: Job, pc: Pc) {
    match pc
    case AwaitBloom => true
    case AwaitIndex => BloomHit(q, job)
    case Done(o) => o == Verdict(q, job)
  }

  /** The query's totals, read off its state. */
  function Observed(st: QueryState, bloomFailures: nat, indexFailures: nat): Tally {
    Tally(
      st.progress.bloomsFetched, bloomFailures, st.progress.hits, st.progress.chunksFetched, indexFailures,
      st.progress.bytesFetched, multiset(st.appearances), multiset(st.failures))
  }

  ghost predicate Accounts(q: Query, st: QueryState) {
    && |st.pcs| == |q.jobs|
    && (forall i | 0 <= i < |st.pcs| :: Plausible(q, q.jobs[i], st.pcs[i]))
    && st.progress.chunksTotal == |q.jobs|
    && st.progress.appearancesFound == |st.appearances|
    && var t := Total(q, st.pcs, |q.jobs|);
       t == Observed(st, t.bloomFailures, t.indexFailures)
  }

  lemma {:induction false} StartTotals(q: Query, pcs: seq<Pc>, n: nat)
    requires n <= |pcs| == |q.jobs| && forall i | 0 <= i < |pcs| :: pcs[i] == AwaitBloom
    ensures Total(q, pcs, n) == ZERO
  {
    hide Add;
    AddZero(ZERO);
    if n == 0 {
    } else {
      StartTotals(q, pcs, n - 1);
    }
  }

  lemma StartAccounts(q: Query)
    ensures Accounts(q, Start(q))
  {
    StartTotals(q, Start(q).pcs, |q.jobs|);
  }

  lemma {:induction false} TotalSame(q: Query, pcs: seq<Pc>, pcs': seq<Pc>, n: nat)
    requires n <= |pcs| == |pcs'| == |q.jobs|
    requires forall j | 0 <= j < n :: pcs[j] == pcs'[j]
    ensures Total(q, pcs, n) == Total(q, pcs', n)
  {
    hide Add, Share;
    if n == 0 {
    } else {
      TotalSame(q, pcs, pcs', n - 1);
    }
  }

  /** Moving one chunk changes the total by that chunk's shares. */
  lemma {:induction false} TotalMoves(q: Query, pcs: seq<Pc>, i: nat, pc: Pc, n: nat)
    requires i < n <= |pcs| == |q.jobs|
    ensures Add(Total(q, pcs[i := pc], n), Share(q, q.jobs[i], pcs[i]))
         == Add(Total(q, pcs, n), Share(q, q.jobs[i], pc))
  {
    hide Share;
    if i == n - 1 {
      TotalSame(q, pcs, pcs[i := pc], n - 1);
      AddSwap(Total(q, pcs, n - 1), Share(q, q.jobs[i], pc), Share(q, q.jobs[i], pcs[i]));
    } else {
      TotalMoves(q, pcs, i, pc, n - 1);
      AddSwap(Total(q, pcs[i := pc], n - 1), Share(q, q.jobs[n - 1], pcs[n - 1]), Share(q, q.jobs[i], pcs[i]));
      AddSwap(Total(q, pcs, n - 1), Share(q, q.jobs[n - 1], pcs[n - 1]), Share(q, q.jobs[i], pc));
    }
  }

  lemma AddSwap(a: Tally, b: Tally, c: Tally)
    ensures Add(Add(a, b), c) == Add(Add(a, c), b)
  {
  }

  lemma AddCancel(a: Tally, b: Tally, c: Tally)
    requires Add(a, c) == Add(b, c)
    ensures a == b
  {
    assert forall x :: a.appearances[x] + c.appearances[x] == b.appearances[x] + c.appearances[x] by {
      forall x
        ensures a.appearances[x] + c.appearances[x] == b.appearances[x] + c.appearances[x]
      {
        assert (a.appearances + c.appearances)[x] == (b.appearances + c.appearances)[x];
      }
    }
    assert forall x :: a.failures[x] + c.failures[x] == b.failures[x] + c.failures[x] by {
      forall x
        ensures a.failures[x] + c.failures[x] == b.failures[x] + c.failures[x]
      {
        assert (a.failures + c.failures)[x] == (b.failures + c.failures)[x];
      }
    }
  }

  // ----- one step keeps the accounts -----

  function NextPc(q: Query, job: Job, pc: Pc): Pc {
    match pc
    case AwaitBloom => if BloomHit(q, job) then AwaitIndex else Done(Verdict(q, job))
    case AwaitIndex => Done(Verdict(q, job))
    case Done(_) => pc
  }

  /** What the step of a chunk at `pc` adds. */
  function Delta(q: Query, job: Job, pc: Pc): Tally {
    match pc
    case AwaitBloom => Share(q, job, NextPc(q, job, pc))
    case AwaitIndex =>
      if IndexError(q, job).Some? then
        ZERO.(indexFailures := 1, bytes := ReplySize(job.indexReply),
        failures := multiset{ChunkFailure(job.chunk.range, job.chunk.indexHash, IndexError(q, job).value)})
      else
        ZERO.(decoded := 1, bytes := ReplySize(job.indexReply),
        appearances := multiset(FoundIn(q, job)))
    case Done(_) => ZERO
  }

  lemma AddZero(a: Tally)
    ensures Add(a, ZERO) == a && Add(ZERO, a) == a
  {
  }

  lemma ShareMoves(q: Query, job: Job, pc: Pc)
    requires Plausible(q, job, pc)
    ensures Plausible(q, job, NextPc(q, job, pc))
    ensures Share(q, job, NextPc(q, job, pc)) == Add(Share(q, job, pc), Delta(q, job, pc))
  {
    hide FoundIn, IndexError, BloomError;
    match pc
    case AwaitBloom => AddZero(Share(q, job, NextPc(q, job, pc)));
    case AwaitIndex => ShareMovesIndex(q, job);
    case Done(_) => AddZero(Share(q, job, pc));
  }

  lemma ShareMovesIndex(q: Query, job: Job)
    requires BloomHit(q, job)
    ensures Share(q, job, Done(Verdict(q, job))) == Add(Share(q, job, AwaitIndex), Delta(q, job, AwaitIndex))
  {
    HitHasNoError(q, job);
    hide FoundIn, IndexError, BloomError, BloomHit, ReplySize;
  }

  lemma AddThree(a: Tally, b: Tally, c: Tally)
    ensures Add(a, Add(b, c)) == Add(Add(a, c), b)
  {
  }

  lemma TotalAfterStep(q: Query, pcs: seq<Pc>, i: nat)
    requires i < |pcs| == |q.jobs| && Plausible(q, q.jobs[i], pcs[i])
    ensures var pc := NextPc(q, q.jobs[i], pcs[i]);
            Total(q, pcs[i := pc], |pcs|) == Add(Total(q, pcs, |pcs|), Delta(q, q.jobs[i], pcs[i]))
  {
    hide Share, Delta, Add, NextPc;
    var job := q.jobs[i];
    var pc := NextPc(q, job, pcs[i]);
    var t := Total(q, pcs, |pcs|);
    ShareMoves(q, job, pcs[i]);
    TotalMoves(q, pcs, i, pc, |pcs|);
    AddThree(t, Share(q, job, pcs[i]), Delta(q, job, pcs[i]));
    AddCancel(Total(q, pcs[i := pc], |pcs|), Add(t, Delta(q, job, pcs[i])), Share(q, job, pcs[i]));
  }

  /** The step itself adds the same, apart from the failure counts nobody keeps. */
  lemma StepObserved(q: Query, st: QueryState, i: nat, x: nat, y: nat)
    requires i < |st.pcs| == |q.jobs| && Plausible(q, q.jobs[i], st.pcs[i])
    ensures var job := q.jobs[i];
            var next := Step(q, st, i);
            var d := Delta(q, job, st.pcs[i]);
            && next.pcs == st.pcs[i := NextPc(q, job, st.pcs[i])]
            && Observed(next, x + d.bloomFailures, y + d.indexFailures) == Add(Observed(st, x, y), d)
            && next.progress.chunksTotal == st.progress.chunksTotal
            && next.progress.appearancesFound - |next.appearances|
               == st.progress.appearancesFound - |st.appearances|
  {
    hide Covers, Appearances, Keep;
    var job := q.jobs[i];
    match st.pcs[i] {
      case AwaitBloom =>
        StepObservedBloom(q, st, i, x, y);
      case AwaitIndex =>
        StepObservedIndex(q, st, i, x, y);
      case Done(o) =>
        AddZero(Observed(st, x, y));
        assert st.pcs[i := st.pcs[i]] == st.pcs;
    }
  }

  lemma BloomArrival(q: Query, st: QueryState, i: nat)
    requires i < |st.pcs| == |q.jobs|
    ensures var job := q.jobs[i];
            var size := ReplySize(job.bloomReply);
            var p := st.progress.(
              bloomsFetched := st.progress.bloomsFetched + 1,
              bytesFetched := st.progress.bytesFetched + size);
            OnBloom(q, st, i) ==
              if BloomError(job).Some? then
                Fail(st, i, BloomFailed, ChunkFailure(job.chunk.range, job.chunk.bloomHash, BloomError(job).value), 0)
              else if BloomHit(q, job) then
                st.(pcs := st.pcs[i := AwaitIndex], progress := p.(hits := p.hits + 1))
              else st.(pcs := st.pcs[i := Done(BloomNegative)], progress := p)
  {
    hide Covers;
  }

  lemma FailureCounted(fs: seq<ChunkFailure>, f: ChunkFailure)
    ensures multiset(fs + [f]) == multiset(fs) + multiset{f}
  {
  }

  lemma StepObservedBloom(q: Query, st: QueryState, i: nat, x: nat, y: nat)
    requires i < |st.pcs| == |q.jobs| && st.pcs[i] == AwaitBloom
    ensures var job := q.jobs[i];
            var next := OnBloom(q, st, i);
            var d := Delta(q, job, AwaitBloom);
            && next.pcs == st.pcs[i := NextPc(q, job, AwaitBloom)]
            && Observed(next, x + d.bloomFailures, y + d.indexFailures) == Add(Observed(st, x, y), d)
            && next.progress.chunksTotal == st.progress.chunksTotal
            && next.progress.appearancesFound == st.progress.appearancesFound
            && next.appearances == st.appearances
  {
    hide OnBloom, BloomError, ReplySize, IndexError, FoundIn, BloomHit;
    var job := q.jobs[i];
    BloomArrival(q, st, i);
    HitHasNoError(q, job);
    if BloomError(job).Some? {
      FailObserved(
        st, i, BloomFailed, ChunkFailure(job.chunk.range, job.chunk.bloomHash, BloomError(job).value), 0, x, y, 1, 0);
      hide Observed, Add;
    }
  }

  /** A failure adds its entry and its bytes. */
  lemma FailObserved(
      st: QueryState, i: nat, outcome: Outcome, failure: ChunkFailure, bytes: nat, x: nat, y: nat, bloom: nat, index: nat)
    requires i < |st.pcs|
    ensures Observed(Fail(st, i, outcome, failure, bytes), x + bloom, y + index)
         == Add(Observed(st, x, y),
                ZERO.(bloomFailures := bloom, indexFailures := index, bytes := bytes, failures := multiset{failure}))
  {
    FailureCounted(st.failures, failure);
  }

  lemma HitHasNoError(q: Query, job: Job)
    ensures BloomHit(q, job) ==> BloomError(job).None?
  {
  }

  lemma StepObservedIndex(q: Query, st: QueryState, i: nat, x: nat, y: nat)
    requires i < |st.pcs| == |q.jobs| && st.pcs[i] == AwaitIndex
    ensures var job := q.jobs[i];
            var next := OnIndex(q, st, i);
            var d := Delta(q, job, AwaitIndex);
            && next.pcs == st.pcs[i := if IndexError(q, job).Some? then Done(IndexFailed) else Done(Decoded)]
            && Observed(next, x + d.bloomFailures, y + d.indexFailures) == Add(Observed(st, x, y), d)
            && next.progress.chunksTotal == st.progress.chunksTotal
            && next.progress.appearancesFound - |next.appearances|
               == st.progress.appearancesFound - |st.appearances|
  {
    hide Covers, Appearances, Keep;
    var job := q.jobs[i];
    if IndexError(q, job).Some? {
      var f := ChunkFailure(job.chunk.range, job.chunk.indexHash, IndexError(q, job).value);
      assert multiset(st.failures + [f]) == multiset(st.failures) + multiset{f};
    } else {
      var kept := FoundIn(q, job);
      assert multiset(st.appearances + kept) == multiset(st.appearances) + multiset(kept);
    }
  }

  lemma StepAccounts(q: Query, st: QueryState, i: nat)
    requires i < |st.pcs| && Accounts(q, st)
    ensures Accounts(q, Step(q, st, i))
  {
    hide Step, Delta, NextPc, Share, Verdict, Add;
    var t := Total(q, st.pcs, |q.jobs|);
    TotalAfterStep(q, st.pcs, i);
    StepObserved(q, st, i, t.bloomFailures, t.indexFailures);
    ShareMoves(q, q.jobs[i], st.pcs[i]);
    AddFailureCounts(t, Delta(q, q.jobs[i], st.pcs[i]));
  }

  lemma AddFailureCounts(a: Tally, b: Tally)
    ensures Add(a, b).bloomFailures == a.bloomFailures + b.bloomFailures
    ensures Add(a, b).indexFailures == a.indexFailures + b.indexFailures
  {
  }

  // ----- runs -----

  /** The state after the replies arrive in the order of `schedule`. */
  function Run(q: Query, schedule: seq<nat>): (st: QueryState)
    requires forall k | 0 <= k < |schedule| :: schedule[k] < |q.jobs|
    ensures |st.pcs| == |q.jobs|
  {
    if schedule == [] then Start(q)
    else Step(q, Run(q, schedule[..|schedule| - 1]), schedule[|schedule| - 1])
  }

  lemma {:induction false} RunAccounts(q: Query, schedule: seq<nat>)
    requires forall k | 0 <= k < |schedule| :: schedule[k] < |q.jobs|
    ensures Accounts(q, Run(q, schedule))
  {
    hide Accounts, Step;
    if schedule == [] {
      StartAccounts(q);
    } else {
      RunAccounts(q, schedule[..|schedule| - 1]);
      StepAccounts(q, Run(q, schedule[..|schedule| - 1]), schedule[|schedule| - 1]);
    }
  }

  /** What a complete query must add up to; no schedule in sight. */
  function FinalTotal(q: Query, n: nat): Tally
    requires n <= |q.jobs|
  {
    if n == 0 then ZERO
    else Add(FinalTotal(q, n - 1), Share(q, q.jobs[n - 1], Done(Verdict(q, q.jobs[n - 1]))))
  }

  lemma {:induction false} CompleteTotal(q: Query, pcs: seq<Pc>, n: nat)
    requires n <= |pcs| == |q.jobs|
    requires forall i | 0 <= i < |pcs| :: pcs[i].Done? && Plausible(q, q.jobs[i], pcs[i])
    ensures Total(q, pcs, n) == FinalTotal(q, n)
  {
    hide Share, Verdict, Add;
    if n == 0 {
    } else {
      CompleteTotal(q, pcs, n - 1);
    }
  }

  ghost predicate IsFinal(q: Query, st: QueryState) {
    var t := FinalTotal(q, |q.jobs|);
    && multiset(st.appearances) == t.appearances
    && multiset(st.failures) == t.failures
    && st.progress == Progress(|q.jobs|, t.blooms, t.hits, t.decoded, |st.appearances|, t.bytes)
  }

  lemma CompleteIsFinal(q: Query, st: QueryState)
    requires Accounts(q, st) && Complete(st)
    ensures IsFinal(q, st)
  {
    hide Share, Verdict, Add;
    CompleteTotal(q, st.pcs, |q.jobs|);
  }

  /**
   Every complete interleaving gives the same counters, the same failures, and the same
   appearances, which after the final sort are the same list.
   */
  lemma ScheduleDoesNotMatter(
      q: Query, s1: seq<nat>, s2: seq<nat>, sorted1: seq<Appearance>, sorted2: seq<Appearance>)
    requires forall k | 0 <= k < |s1| :: s1[k] < |q.jobs|
    requires forall k | 0 <= k < |s2| :: s2[k] < |q.jobs|
    requires Complete(Run(q, s1)) && Complete(Run(q, s2))
    requires OrderedPermutation(Run(q, s1).appearances, sorted1, AppearanceAtMost)
    requires OrderedPermutation(Run(q, s2).appearances, sorted2, AppearanceAtMost)
    ensures sorted1 == sorted2
    ensures multiset(Run(q, s1).failures) == multiset(Run(q, s2).failures)
    ensures Run(q, s1).progress == Run(q, s2).progress
  {
    hide Run, Accounts, Complete, FinalTotal;
    RunAccounts(q, s1);
    RunAccounts(q, s2);
    CompleteIsFinal(q, Run(q, s1));
    CompleteIsFinal(q, Run(q, s2));
    OrderedUnique(sorted1, sorted2, AppearanceAtMost);
    assert |multiset(Run(q, s1).appearances)| == |multiset(Run(q, s2).appearances)|;
  }

  // ----- how every chunk ends -----

  function Ending(q: Query, o: Outcome, n: nat): nat
    requires n <= |q.jobs|
  {
    if n == 0 then 0
    else Ending(q, o, n - 1) + if Verdict(q, q.jobs[n - 1]) == o then 1 else 0
  }

  function One(b: bool): nat {
    if b then 1 else 0
  }

  lemma ShareCounts(q: Query, job: Job, o: Outcome)
    ensures var s := Share(q, job, Done(o));
            && s.bloomFailures == One(o == BloomFailed)
            && s.indexFailures == One(o == IndexFailed)
            && s.decoded == One(o == Decoded)
            && s.blooms == 1 - s.bloomFailures
            && s.hits == s.decoded + s.indexFailures
            && |s.failures| == s.bloomFailures + s.indexFailures
  {
    hide FoundIn, BloomError, IndexError;
  }

  lemma AddCounts(a: Tally, b: Tally)
    ensures var s := Add(a, b);
            && s.blooms == a.blooms + b.blooms && s.bloomFailures == a.bloomFailures + b.bloomFailures
            && s.hits == a.hits + b.hits && s.decoded == a.decoded + b.decoded
            && s.indexFailures == a.indexFailures + b.indexFailures
            && |s.failures| == |a.failures| + |b.failures|
  {
  }

  lemma {:induction false} EndingsCounted(q: Query, n: nat)
    requires n <= |q.jobs|
    ensures var t := FinalTotal(q, n);
            && t.bloomFailures == Ending(q, BloomFailed, n)
            && t.indexFailures == Ending(q, IndexFailed, n)
            && t.decoded == Ending(q, Decoded, n)
            && t.blooms == n - t.bloomFailures
            && t.hits == t.decoded + t.indexFailures
            && |t.failures| == t.bloomFailures + t.indexFailures
            && n == Ending(q, BloomNegative, n) + t.decoded + t.bloomFailures + t.indexFailures
  {
    hide Verdict, Share, Add;
    if n == 0 {
    } else {
      EndingsCounted(q, n - 1);
      var job := q.jobs[n - 1];
      ShareCounts(q, job, Verdict(q, job));
      AddCounts(FinalTotal(q, n - 1), Share(q, job, Done(Verdict(q, job))));
    }
  }

  /**
   The final counters balance: every chunk in scope ended bloom-negative, decoded or with exactly
   one failure entry, whatever the replies were.
   */
  lemma CountersBalance(q: Query, st: QueryState)
    requires Accounts(q, st) && Complete(st)
    ensures var n := |q.jobs|;
            var p := st.progress;
            && p.chunksTotal == n == p.bloomsFetched + Ending(q, BloomFailed, n)
            && p.hits == p.chunksFetched + Ending(q, IndexFailed, n)
            && p.chunksFetched == Ending(q, Decoded, n)
            && p.bloomsFetched == p.hits + Ending(q, BloomNegative, n)
            && |st.failures| == Ending(q, BloomFailed, n) + Ending(q, IndexFailed, n)
            && p.appearancesFound == |st.appearances|
  {
    hide Verdict;
    CompleteIsFinal(q, st);
    EndingsCounted(q, |q.jobs|);
    assert |multiset(st.failures)| == |st.failures|;
  }

  // ----- against the brute-force scan -----

  /** A chunk published as the format promises. */
  ghost predicate WellPublished(job: Job) {
    && WellFormed(job.indexFile)
    && ParseBloom(job.bloomFile).Ok?
    && (forall a: Address | Lists(job.indexFile, a) :: Covers(ParseBloom(job.bloomFile).value, a))
    && (forall a: Address, x | x in BruteForce(job.indexFile, a) ::
          job.chunk.range.first <= x.blockNumber <= job.chunk.range.last)
  }

  /** Replies are the published file, or fail, or do not parse. */
  ghost predicate HonestReplies(q: Query, job: Job) {
    && (BloomError(job).Some? || job.bloomReply == Ok(job.bloomFile))
    && (IndexError(q, job).Some? || job.indexReply == Ok(job.indexFile))
  }

  function Wanted(job: Job, address: Address, range: Option<BlockRange>): seq<Appearance> {
    Keep(BruteForce(job.indexFile, address), range)
  }

  /** Scan every record of every chunk. */
  function ScanAll(jobs: seq<Job>, address: Address, range: Option<BlockRange>): multiset<Appearance> {
    if jobs == [] then multiset{}
    else ScanAll(jobs[..|jobs| - 1], address, range) + multiset(Wanted(jobs[|jobs| - 1], address, range))
  }

  /** The same, leaving out the chunks that failed. */
  function ScanServed(q: Query, n: nat): multiset<Appearance>
    requires n <= |q.jobs|
  {
    if n == 0 then multiset{}
    else
      ScanServed(q, n - 1) +
      if Verdict(q, q.jobs[n - 1]) in {BloomFailed, IndexFailed} then multiset{}
      else multiset(Wanted(q.jobs[n - 1], q.address, q.blockRange))
  }

  lemma ServedChunkIsScanned(q: Query, job: Job)
    requires WellPublished(job) && HonestReplies(q, job)
    ensures Share(q, job, Done(Verdict(q, job))).appearances ==
              if Verdict(q, job) in {BloomFailed, IndexFailed} then multiset{}
              else multiset(Wanted(job, q.address, q.blockRange))
  {
    hide Covers, Keep, Appearances, BruteForce, WellFormed, ParseBloom, Lists;
    SearchIsScan(job.indexFile, q.address);
    if Verdict(q, job) == BloomNegative {
      assert !Lists(job.indexFile, q.address);
      assert BruteForce(job.indexFile, q.address) == [];
      KeepNone(q.blockRange);
    }
  }

  lemma KeepNone(range: Option<BlockRange>)
    ensures Keep([], range) == []
  {
  }

  lemma {:induction false} ServedTotal(q: Query, n: nat)
    requires n <= |q.jobs|
    requires forall i | 0 <= i < |q.jobs| :: WellPublished(q.jobs[i]) && HonestReplies(q, q.jobs[i])
    ensures FinalTotal(q, n).appearances == ScanServed(q, n)
  {
    hide Share, Verdict, Wanted, WellPublished, HonestReplies;
    if n == 0 {
    } else {
      ServedTotal(q, n - 1);
      ServedChunkIsScanned(q, q.jobs[n - 1]);
    }
  }

  /**
   Faults subtract, and nothing else: under any fetch or parse faults and any complete schedule the
   answer is the brute-force scan of the chunks in scope minus exactly those that failed.
   */
  lemma FaultsSubtractExactly(q: Query, schedule: seq<nat>)
    requires forall i | 0 <= i < |q.jobs| :: WellPublished(q.jobs[i]) && HonestReplies(q, q.jobs[i])
    requires forall k | 0 <= k < |schedule| :: schedule[k] < |q.jobs|
    requires Complete(Run(q, schedule))
    ensures multiset(Run(q, schedule).appearances) == ScanServed(q, |q.jobs|)
  {
    hide Run, Complete, WellPublished, HonestReplies, Accounts, ScanServed, FinalTotal;
    RunAccounts(q, schedule);
    CompleteIsFinal(q, Run(q, schedule));
    ServedTotal(q, |q.jobs|);
  }

  // ----- nothing is lost -----

  lemma {:induction false} KeepOutside(found: seq<Appearance>, chunk: BlockRange, range: BlockRange)
    requires forall x | x in found :: InRange(x, chunk)
    requires !RangesOverlap(chunk, range)
    ensures Keep(found, Some(range)) == []
  {
    if found == [] {
    } else {
      assert found[0] in found;
      KeepOutside(found[1..], chunk, range);
    }
  }

  /** Chunks outside the range hold nothing the caller asked for. */
  lemma {:induction false} ScopeLosesNothing(jobs: seq<Job>, address: Address, range: Option<BlockRange>)
    requires forall i | 0 <= i < |jobs| :: WellPublished(jobs[i])
    ensures ScanAll(InScope(jobs, range), address, range) == ScanAll(jobs, address, range)
    ensures forall i | 0 <= i < |InScope(jobs, range)| :: InScope(jobs, range)[i] in jobs
  {
    hide Wanted, WellPublished, RangesOverlap;
    if jobs == [] {
    } else {
      var init, last := jobs[..|jobs| - 1], jobs[|jobs| - 1];
      ScopeLosesNothing(init, address, range);
      var rest := InScope(init, range);
      if range.None? || RangesOverlap(last.chunk.range, range.value) {
        assert InScope(jobs, range) == rest + [last];
        assert (rest + [last])[..|rest|] == rest;
      } else {
        OutsideWantsNothing(last, address, range.value);
      }
    }
  }

  lemma OutsideWantsNothing(job: Job, address: Address, range: BlockRange)
    requires WellPublished(job) && !RangesOverlap(job.chunk.range, range)
    ensures Wanted(job, address, Some(range)) == []
  {
    hide BruteForce, Lists, WellFormed, Covers;
    KeepOutside(BruteForce(job.indexFile, address), job.chunk.range, range);
  }

  lemma {:induction false} NoFaultServesAll(q: Query, n: nat)
    requires n <= |q.jobs|
    requires forall i | 0 <= i < n :: Verdict(q, q.jobs[i]) !in {BloomFailed, IndexFailed}
    ensures ScanServed(q, n) == ScanAll(q.jobs[..n], q.address, q.blockRange)
  {
    hide Verdict, Wanted;
    if n == 0 {
    } else {
      NoFaultServesAll(q, n - 1);
      assert q.jobs[..n][..n - 1] == q.jobs[..n - 1];
    }
  }

  ghost predicate Faultless(job: Job) {
    job.bloomReply == Ok(job.bloomFile) && job.indexReply == Ok(job.indexFile)
  }

  lemma FaultlessServed(q: Query, job: Job)
    requires WellPublished(job) && Faultless(job)
    ensures HonestReplies(q, job) && Verdict(q, job) !in {BloomFailed, IndexFailed}
  {
    hide Covers, WellFormed, BruteForce, Lists;
    SearchIsScan(job.indexFile, q.address);
  }

  /**
   Lossless pruning. With the published files served, every complete interleaving of the query
   over the chunks in scope finds exactly what scanning every record of every chunk of the whole
   manifest would find, and reports no failure.
   */
  lemma LosslessPruning(
      manifest: seq<Job>, address: Address, range: Option<BlockRange>, schedule: seq<nat>)
    requires forall i | 0 <= i < |manifest| :: WellPublished(manifest[i]) && Faultless(manifest[i])
    requires forall k | 0 <= k < |schedule| :: schedule[k] < |InScope(manifest, range)|
    requires Complete(Run(Query(address, range, InScope(manifest, range)), schedule))
    ensures var st := Run(Query(address, range, InScope(manifest, range)), schedule);
            && multiset(st.appearances) == ScanAll(manifest, address, range)
            && st.failures == []
  {
    hide Run, Complete, WellPublished, Faultless, HonestReplies, Accounts, ScanServed, ScanAll, InScope, Verdict;
    var q := Query(address, range, InScope(manifest, range));
    ScopeLosesNothing(manifest, address, range);
    forall i | 0 <= i < |q.jobs|
      ensures WellPublished(q.jobs[i]) && HonestReplies(q, q.jobs[i])
      ensures Verdict(q, q.jobs[i]) !in {BloomFailed, IndexFailed}
    {
      assert q.jobs[i] in manifest;
      FaultlessServed(q, q.jobs[i]);
    }
    FaultsSubtractExactly(q, schedule);
    NoFaultServesAll(q, |q.jobs|);
    assert q.jobs[..|q.jobs|] == q.jobs;
    RunAccounts(q, schedule);
    CountersBalance(q, Run(q, schedule));
    NoFailedEnding(q, |q.jobs|);
  }

  lemma {:induction false} NoFailedEnding(q: Query, n: nat)
    requires n <= |q.jobs|
    requires forall i | 0 <= i < |q.jobs| :: Verdict(q, q.jobs[i]) !in {BloomFailed, IndexFailed}
    ensures Ending(q, BloomFailed, n) == 0 && Ending(q, IndexFailed, n) == 0
  {
    hide Verdict;
    if n == 0 {
    } else {
      NoFailedEnding(q, n - 1);
    }
  }

  // ----- the running query -----

  datatype AppearancesResult = AppearancesResult(
    address: Address,
    appearances: seq<Appearance>,
    failures: seq<ChunkFailure>,
    progress: Progress)

  class QueryRun {
    const q: Query
    var pcs: seq<Pc>
    var progress: Progress
    var appearances: seq<Appearance>
    var failures: seq<ChunkFailure>

    function State(): QueryState
      reads this
    {
      QueryState(pcs, progress, appearances, failures)
    }

    constructor (q: Query)
      ensures this.q == q && State() == Start(q)
    {
      this.q := q;
      pcs := seq(|q.jobs|, i => AwaitBloom);
      progress := Progress(|q.jobs|, 0, 0, 0, 0, 0);
      appearances, failures := [], [];
    }

    method PushFailure(i: nat, cid: Cid, error: ReadError, outcome: Outcome)
      requires i < |pcs| == |q.jobs|
      modifies this`failures, this`pcs
      ensures failures == old(failures) + [ChunkFailure(q.jobs[i].chunk.range, cid, error)]
      ensures pcs == old(pcs)[i := Done(outcome)]
    {
      failures := failures + [ChunkFailure(q.jobs[i].chunk.range, cid, error)];
      pcs := pcs[i := Done(outcome)];
    }

    /** The bloom reply of chunk `i` arrives: parse, test, and maybe ask for the index. */
    method BloomArrives(i: nat)
      requires i < |pcs| == |q.jobs| && pcs[i] == AwaitBloom
      modifies this
      ensures State() == OnBloom(q, old(State()), i)
    {
      hide Covers;
      var chunk := q.jobs[i].chunk;
      var reply := q.jobs[i].bloomReply;
      if reply.Err? {
        PushFailure(i, chunk.bloomHash, reply.error, BloomFailed);
        return;
      }
      var bloom := ParseBloom(reply.value);
      if bloom.Err? {
        PushFailure(i, chunk.bloomHash, bloom.error, BloomFailed);
        return;
      }
      progress := progress.(bloomsFetched := progress.bloomsFetched + 1);
      progress := progress.(bytesFetched := progress.bytesFetched + |reply.value|);
      var might := MightContain(bloom.value, q.address);
      if !might {
        pcs := pcs[i := Done(BloomNegative)];
        return;
      }
      progress := progress.(hits := progress.hits + 1);
      pcs := pcs[i := AwaitIndex];
    }

    /** The index reply of chunk `i` arrives: look the address up and keep what is in range. */
    method IndexArrives(i: nat)
      requires i < |pcs| == |q.jobs| && pcs[i] == AwaitIndex
      modifies this
      ensures State() == OnIndex(q, old(State()), i)
    {
      hide Appearances, Keep;
      var chunk := q.jobs[i].chunk;
      var reply := q.jobs[i].indexReply;
      if reply.Err? {
        PushFailure(i, chunk.indexHash, reply.error, IndexFailed);
        return;
      }
      progress := progress.(bytesFetched := progress.bytesFetched + |reply.value|);
      var found := AppearancesOf(reply.value, q.address);
      if found.Err? {
        PushFailure(i, chunk.indexHash, found.error, IndexFailed);
        return;
      }
      progress := progress.(chunksFetched := progress.chunksFetched + 1);
      var kept := Keep(found.value, q.blockRange);
      appearances := appearances + kept;
      progress := progress.(appearancesFound := progress.appearancesFound + |kept|);
      pcs := pcs[i := Done(Decoded)];
    }
  }

  function Remaining(pcs: seq<Pc>): nat {
    if pcs == [] then 0
    else Remaining(pcs[..|pcs| - 1]) + match pcs[|pcs| - 1] case AwaitBloom => 2 case AwaitIndex => 1 case Done(_) => 0
  }

  lemma {:induction false} RemainingDrops(pcs: seq<Pc>, i: nat, pc: Pc)
    requires i < |pcs|
    requires (pcs[i] == AwaitBloom && pc != AwaitBloom) || (pcs[i] == AwaitIndex && pc.Done?)
    ensures Remaining(pcs[i := pc]) < Remaining(pcs)
  {
    var init := pcs[..|pcs| - 1];
    if i == |pcs| - 1 {
      assert pcs[i := pc][..|pcs| - 1] == init;
    } else {
      RemainingDrops(init, i, pc);
      assert pcs[i := pc][..|pcs| - 1] == init[i := pc];
    }
  }

  /** What the query owes its caller: the sum of what each chunk in scope must contribute, sorted. */
  ghost predicate IsAnswer(
      address: Address, blockRange: Option<BlockRange>, manifest: seq<Job>, r: AppearancesResult)
  {
    var q := Query(address, blockRange, InScope(manifest, blockRange));
    var t := FinalTotal(q, |q.jobs|);
    && r.address == address
    && Ordered(r.appearances, AppearanceAtMost)
    && multiset(r.appearances) == t.appearances
    && multiset(r.failures) == t.failures
    && r.progress == Progress(|q.jobs|, t.blooms, t.hits, t.decoded, |r.appearances|, t.bytes)
  }

  /** All chunks run at once; any outstanding reply may arrive next. */
  method GetAppearances(address: Address, blockRange: Option<BlockRange>, manifest: seq<Job>)
    returns (r: AppearancesResult)
    ensures IsAnswer(address, blockRange, manifest, r)
  {
    hide OnBloom, OnIndex, Accounts, FinalTotal, AppearanceAtMost, InScope;
    var q := Query(address, blockRange, InScope(manifest, blockRange));
    var run := new QueryRun(q);
    StartAccounts(q);
    while exists i :: 0 <= i < |run.pcs| && !run.pcs[i].Done?
      invariant run.q == q && |run.pcs| == |q.jobs| && Accounts(q, run.State())
      modifies run
      decreases Remaining(run.pcs)
    {
      var i: nat :| i < |run.pcs| && !run.pcs[i].Done?;
      ghost var before := run.State();
      StepAccounts(q, before, i);
      StepAdvances(q, before, i);
      if run.pcs[i] == AwaitBloom {
        run.BloomArrives(i);
      } else {
        run.IndexArrives(i);
      }
      assert run.State() == Step(q, before, i);
    }
    CompleteIsFinal(q, run.State());
    ByAppearance();
    var sorted := Sort(run.appearances, AppearanceAtMost);
    assert |multiset(sorted)| == |multiset(run.appearances)|;
    r := AppearancesResult(address, sorted, run.failures, run.progress);
  }

  /** The returned list is the brute-force scan of the chunks in scope minus exactly those that failed. */
  lemma AnswerUnderFaults(
      address: Address, range: Option<BlockRange>, manifest: seq<Job>, r: AppearancesResult)
    requires IsAnswer(address, range, manifest, r)
    requires forall i | 0 <= i < |InScope(manifest, range)| ::
               var q := Query(address, range, InScope(manifest, range));
               WellPublished(q.jobs[i]) && HonestReplies(q, q.jobs[i])
    ensures var q := Query(address, range, InScope(manifest, range));
            var n := |q.jobs|;
            && multiset(r.appearances) == ScanServed(q, n)
            && |r.failures| == Ending(q, BloomFailed, n) + Ending(q, IndexFailed, n)
  {
    hide InScope, WellPublished, HonestReplies, ScanServed, FinalTotal, Ordered;
    var q := Query(address, range, InScope(manifest, range));
    ServedTotal(q, |q.jobs|);
    EndingsCounted(q, |q.jobs|);
    assert |r.failures| == |multiset(r.failures)|;
  }

  lemma AnswerScans(address: Address, range: Option<BlockRange>, manifest: seq<Job>, r: AppearancesResult)
    requires IsAnswer(address, range, manifest, r)
    requires forall i | 0 <= i < |manifest| :: WellPublished(manifest[i]) && Faultless(manifest[i])
    ensures multiset(r.appearances) == ScanAll(manifest, address, range) && r.failures == []
  {
    hide InScope, WellPublished, Faultless, HonestReplies, ScanServed, ScanAll, Verdict, FinalTotal, Ordered;
    var q := Query(address, range, InScope(manifest, range));
    ScopeLosesNothing(manifest, address, range);
    forall i | 0 <= i < |q.jobs|
      ensures WellPublished(q.jobs[i]) && HonestReplies(q, q.jobs[i])
      ensures Verdict(q, q.jobs[i]) !in {BloomFailed, IndexFailed}
    {
      assert q.jobs[i] in manifest;
      FaultlessServed(q, q.jobs[i]);
    }
    AnswerUnderFaults(address, range, manifest, r);
    NoFaultServesAll(q, |q.jobs|);
    assert q.jobs[..|q.jobs|] == q.jobs;
    NoFailedEnding(q, |q.jobs|);
  }

  /**
   With the published files served, the returned list is the one sorted list of everything that scanning
   every record of every chunk of the whole manifest would find, and no failure is reported.
   */
  lemma AnswerIsScan(
      address: Address, range: Option<BlockRange>, manifest: seq<Job>, r: AppearancesResult,
      scanned: seq<Appearance>)
    requires IsAnswer(address, range, manifest, r)
    requires forall i | 0 <= i < |manifest| :: WellPublished(manifest[i]) && Faultless(manifest[i])
    requires multiset(scanned) == ScanAll(manifest, address, range) && Ordered(scanned, AppearanceAtMost)
    ensures r.appearances == scanned && r.failures == []
  {
    hide InScope, WellPublished, Faultless, ScanAll, FinalTotal, Ordered;
    AnswerScans(address, range, manifest, r);
    ByAppearance();
    OrderedUnique(r.appearances, scanned, AppearanceAtMost);
  }

  // ----- the answer, spelled out -----

  /** How many times scanning every record of every chunk comes across `x`. */
  ghost function Occurrences(manifest: seq<Job>, address: Address, x: Appearance): nat {
    if manifest == [] then 0
    else
      Occurrences(manifest[..|manifest| - 1], address, x)
      + multiset(BruteForce(manifest[|manifest| - 1].indexFile, address))[x]
  }

  lemma {:induction false} KeepCounts(found: seq<Appearance>, range: Option<BlockRange>, x: Appearance)
    ensures multiset(Keep(found, range))[x] ==
              if range.None? || range.value.first <= x.blockNumber <= range.value.last
              then multiset(found)[x] else 0
  {
    if found == [] || range.None? {
    } else {
      KeepCounts(found[1..], range, x);
      assert found == [found[0]] + found[1..];
    }
  }

  lemma {:induction false} ScanCounts(
      manifest: seq<Job>, address: Address, range: Option<BlockRange>, x: Appearance)
    ensures ScanAll(manifest, address, range)[x] ==
              if range.None? || range.value.first <= x.blockNumber <= range.value.last
              then Occurrences(manifest, address, x) else 0
  {
    hide Keep, BruteForce;
    if manifest == [] {
    } else {
      ScanCounts(manifest[..|manifest| - 1], address, range, x);
      KeepCounts(BruteForce(manifest[|manifest| - 1].indexFile, address), range, x);
    }
  }

  /**
   The promise of a query, without its machinery: with the published files served, an appearance in the
   inclusive block range is returned as often as the whole manifest holds it and any other not at all;
   the list ascends by block number and then by transaction index.
   */
  lemma AnswerInRange(
      address: Address, range: Option<BlockRange>, manifest: seq<Job>, r: AppearancesResult, x: Appearance)
    requires IsAnswer(address, range, manifest, r)
    requires forall i | 0 <= i < |manifest| :: WellPublished(manifest[i]) && Faultless(manifest[i])
    ensures multiset(r.appearances)[x] ==
              if range.None? || range.value.first <= x.blockNumber <= range.value.last
              then Occurrences(manifest, address, x) else 0
    ensures forall i, j | 0 <= i < j < |r.appearances| ::
              var a, b := r.appearances[i], r.appearances[j];
              a.blockNumber < b.blockNumber
              || (a.blockNumber == b.blockNumber && a.transactionIndex <= b.transactionIndex)
    ensures r.failures == [] && r.address == address
  {
    hide InScope, WellPublished, Faultless, ScanAll, FinalTotal, Occurrences;
    AnswerScans(address, range, manifest, r);
    ScanCounts(manifest, address, range, x);
  }

  /** The chunks asked about are those that overlap the inclusive range, each as often as it is listed. */
  lemma {:induction false} ScopeSpelled(jobs: seq<Job>, range: Option<BlockRange>, job: Job)
    ensures multiset(InScope(jobs, range))[job] ==
              if range.None? || (job.chunk.range.first <= range.value.last && range.value.first <= job.chunk.range.last)
              then multiset(jobs)[job] else 0
  {
    if jobs == [] {
    } else {
      ScopeSpelled(jobs[..|jobs| - 1], range, job);
      assert jobs == jobs[..|jobs| - 1] + [jobs[|jobs| - 1]];
    }
  }

  /**
   What one chunk adds to the answer, from its two replies: a bad bloom or a bad index is one failure under its
   own identifier, a bloom that does not match ends the chunk, and the bytes are those of the files read.
   */
  lemma ChunkAccount(q: Query, job: Job)
    ensures var t := Share(q, job, Done(Verdict(q, job)));
            match job.bloomReply
            case Err(e) =>
              t == Tally(0, 1, 0, 0, 0, 0, multiset{}, multiset{ChunkFailure(job.chunk.range, job.chunk.bloomHash, e)})
            case Ok(b) =>
              match ParseBloom(b)
              case Err(e) =>
                t == Tally(0, 1, 0, 0, 0, 0, multiset{}, multiset{ChunkFailure(job.chunk.range, job.chunk.bloomHash, e)})
              case Ok(bloom) =>
                if !Covers(bloom, q.address) then t == Tally(1, 0, 0, 0, 0, |b|, multiset{}, multiset{})
                else
                  match job.indexReply
                  case Err(e) =>
                    t == Tally(1, 0, 1, 0, 1, |b|, multiset{},
                               multiset{ChunkFailure(job.chunk.range, job.chunk.indexHash, e)})
                  case Ok(f) =>
                    match Appearances(f, q.address)
                    case Err(e) =>
                      t == Tally(1, 0, 1, 0, 1, |b| + |f|, multiset{},
                                 multiset{ChunkFailure(job.chunk.range, job.chunk.indexHash, e)})
                    case Ok(found) =>
                      && t == Tally(1, 0, 1, 1, 0, |b| + |f|, t.appearances, multiset{})
                      && forall x :: t.appearances[x] ==
                           if q.blockRange.None? || q.blockRange.value.first <= x.blockNumber <= q.blockRange.value.last
                           then multiset(found)[x] else 0
  {
    hide Covers, Keep, Appearances, ParseBloom;
    if Verdict(q, job) == Decoded {
      forall x {
        KeepCounts(Appearances(job.indexReply.value, q.address).value, q.blockRange, x);
      }
    }
  }

  lemma ByAppearance()
    ensures TotalPreorder(AppearanceAtMost)
  {
  }

  lemma StepAdvances(q: Query, st: QueryState, i: nat)
    requires Accounts(q, st) && i < |st.pcs| == |q.jobs| && !st.pcs[i].Done?
    ensures |Step(q, st, i).pcs| == |q.jobs|
    ensures Remaining(Step(q, st, i).pcs) < Remaining(st.pcs)
  {
    hide Covers, Appearances, Keep, ParseBloom, Remaining;
    var next := Step(q, st, i);
    assert next.pcs == st.pcs[i := next.pcs[i]];
    RemainingDrops(st.pcs, i, next.pcs[i]);
  }
}
