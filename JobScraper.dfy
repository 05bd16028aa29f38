/**
 * `JobScraper.process_jobs`: every posting of the fetched result is scored in
 * order, the scorer's reply is normalised and checked, the postings whose
 * score clears the threshold are collected in order, and the output file is
 * rewritten with the list so far after each one.
 *
 * The scorer and the file system are outside the model: the method receives,
 * for each posting, what the scoring call did and whether the rewrite of the
 * output file succeeded, and reports as ghost outputs the scoring calls it
 * made and the snapshots it wrote.
 */
module JobScraper {
  import opened Wrappers
  import opened Sequences
  import opened Text
  import opened JobLinks

  /** One entry of the upstream `models` list. A field is `None` when its key is absent. */
  datatype Job =
    | Posting(jobTitle: Option<string>, name: Option<string>, jobDesc: Option<string>, jobId: Option<string>)
    | NotAMapping  // an entry that is not a dictionary: reading a field from it raises

  /** The fetched response; `models` is `None` when the response has no `models` key. */
  datatype Response = Response(models: Option<seq<Job>>)

  /** What the scoring call did for one posting: it raised, or it returned a reply, possibly `None`. */
  datatype ScoreCall = Raises | Returns(reply: Option<string>)

  /** The arguments of one scoring call. */
  datatype ScoreQuery = ScoreQuery(companyName: string, jobTitle: string, jobDescription: string)

  /** An accepted posting, as it is written to the output file. */
  datatype ScoredJob = ScoredJob(jobTitle: string, companyName: string, score: string, url: string)

  /** The threshold `process_jobs` uses when none is given, and the one the driver passes. */
  const DefaultMinScore := 50

  function Title(job: Job): string
    requires job.Posting?
  {
    job.jobTitle.GetOr("Unknown Title")
  }

  function Company(job: Job): string
    requires job.Posting?
  {
    job.name.GetOr("Unknown Company")
  }

  function Description(job: Job): string
    requires job.Posting?
  {
    job.jobDesc.GetOr("")
  }

  function Id(job: Job): string
    requires job.Posting?
  {
    job.jobId.GetOr("")
  }

  /** The jobs to process: none when the response is missing or has no `models` key. */
  function Models(jobsData: Option<Response>): seq<Job> {
    if jobsData.Some? && jobsData.value.models.Some? then jobsData.value.models.value else []
  }

  /** The reply as it is checked: a falsy reply (`None` or empty) stands for
      `"0"`, any other reply is stripped of surrounding whitespace. */
  function Normalize(reply: Option<string>): (t: string)
    ensures reply.None? || reply.value == [] ==> t == "0"
    ensures reply.Some? && reply.value != [] ==> t == Strip(reply.value)
    ensures t == [] || (!IsWhitespace(t[0]) && !IsWhitespace(t[|t| - 1]))
  {
    if reply.Some? && reply.value != [] then Strip(reply.value) else "0"
  }

  /** A checked reply is accepted when it is a digit string whose value reaches the threshold. */
  predicate Passes(score: string, minScore: int) {
    IsDigits(score) && Value(score) >= minScore
  }

  /** One pass of the loop body, as a value: the record appended for this posting, if any.
      A posting whose fields cannot be read, or whose scoring call raises, is skipped. */
  function Evaluate(job: Job, call: ScoreCall, minScore: int): Option<ScoredJob>
  {
    if job.NotAMapping? || call.Raises? then None
    else
      var score := Normalize(call.reply);
      if Passes(score, minScore) then Some(ScoredJob(Title(job), Company(job), score, JobUrl(Id(job))))
      else None
  }

  /** A record is produced only for a readable posting whose scoring call
      returned; its score is a digit string whose value reaches the
      threshold, and it carries the posting's title, company and link. */
  lemma AcceptedRecord(job: Job, call: ScoreCall, minScore: int)
    ensures var r := Evaluate(job, call, minScore);
      && (r.Some? ==> job.Posting? && call.Returns?)
      && (r.Some? ==> IsDigits(r.value.score) && Value(r.value.score) >= minScore)
      && (r.Some? ==> r.value == ScoredJob(Title(job), Company(job), Normalize(call.reply), JobUrl(Id(job))))
  {
  }

  /** What each posting yields, position by position. */
  function Outcomes(models: seq<Job>, calls: seq<ScoreCall>, minScore: int): seq<Option<ScoredJob>>
    requires |calls| == |models|
  {
    seq(|models|, i requires 0 <= i < |models| => Evaluate(models[i], calls[i], minScore))
  }

  /** The values present among `outcomes`, in order. */
  function Kept<T>(outcomes: seq<Option<T>>): seq<T>
    decreases |outcomes|
  {
    if outcomes == [] then []
    else
      var n := |outcomes| - 1;
      Kept(outcomes[..n]) + outcomes[n].ToSeq()
  }

  /** The positions of the values present among `outcomes`, in increasing order. */
  function KeptIndices<T>(outcomes: seq<Option<T>>): seq<nat>
    decreases |outcomes|
  {
    if outcomes == [] then []
    else
      var n := |outcomes| - 1;
      KeptIndices(outcomes[..n]) + (if outcomes[n].Some? then [n] else [])
  }

  /** The accepted records of `models`, in input order. */
  function Accepted(models: seq<Job>, calls: seq<ScoreCall>, minScore: int): seq<ScoredJob>
    requires |calls| == |models|
  {
    Kept(Outcomes(models, calls, minScore))
  }

  /** The scoring call made for one posting, if its fields can be read: the
      company, title and description, with the defaults filled in. */
  function Query(job: Job): Option<ScoreQuery> {
    if job.Posting? then Some(ScoreQuery(Company(job), Title(job), Description(job))) else None
  }

  /** The scoring calls made for `models`, in order. */
  function Queries(models: seq<Job>): seq<ScoreQuery> {
    Kept(seq(|models|, i requires 0 <= i < |models| => Query(models[i])))
  }

  /** The contents of the output file after each successful rewrite: after
      each record kept whose rewrite succeeds, the records kept so far. */
  function Snapshots(outcomes: seq<Option<ScoredJob>>, saves: seq<bool>): seq<seq<ScoredJob>>
    requires |saves| == |outcomes|
    decreases |outcomes|
  {
    if outcomes == [] then []
    else
      var n := |outcomes| - 1;
      var earlier := Snapshots(outcomes[..n], saves[..n]);
      if outcomes[n].Some? && saves[n] then earlier + [Kept(outcomes)] else earlier
  }

  /**
   * `process_jobs(jobs_data, min_score)`. `calls[i]` is what the scoring call
   * does for the i-th posting and `saves[i]` whether rewriting the output
   * file after accepting it succeeds; a failed rewrite raises after the
   * record was appended, so the record stays in the result.
   */
  method ProcessJobs(jobsData: Option<Response>, calls: seq<ScoreCall>, saves: seq<bool>, minScore: int)
    returns (goodJobs: seq<ScoredJob>, ghost queries: seq<ScoreQuery>, ghost snapshots: seq<seq<ScoredJob>>)
    requires |calls| == |Models(jobsData)| && |saves| == |Models(jobsData)|
    ensures Models(jobsData) == [] ==> goodJobs == [] && queries == [] && snapshots == []
    ensures goodJobs == Accepted(Models(jobsData), calls, minScore)
    ensures |goodJobs| <= |Models(jobsData)|
    ensures queries == Queries(Models(jobsData))
    ensures snapshots == Snapshots(Outcomes(Models(jobsData), calls, minScore), saves)
    ensures forall k :: 0 <= k < |snapshots| ==>
              0 < |snapshots[k]| <= |goodJobs| && snapshots[k] == goodJobs[..|snapshots[k]|]
  {
    if jobsData.None? || jobsData.value.models.None? {
      return [], [], [];
    }
    var models := jobsData.value.models.value;
    ghost var outcomes := Outcomes(models, calls, minScore);
    ghost var asked := seq(|models|, i requires 0 <= i < |models| => Query(models[i]));
    goodJobs, queries, snapshots := [], [], [];
    for i := 0 to |models|
      invariant goodJobs == Kept(outcomes[..i])
      invariant queries == Kept(asked[..i])
      invariant snapshots == Snapshots(outcomes[..i], saves[..i])
    {
      KeptStep(outcomes, i);
      KeptStep(asked, i);
      SnapshotsStep(outcomes, saves, i);
      var query, record := ScoreJob(models[i], calls[i], minScore);
      queries := queries + query.ToSeq();
      if record.Some? {
        goodJobs := goodJobs + [record.value];
        if saves[i] {
          snapshots := snapshots + [goodJobs];
        }
      }
    }
    assert models[..|models|] == models;
    assert outcomes[..|models|] == outcomes;
    assert asked[..|models|] == asked;
    assert saves[..|models|] == saves;
    KeptIndicesLocate(outcomes);
    SnapshotsArePrefixes(outcomes, saves);
  }

  /**
   * The body of the loop for one posting: read its fields with their
   * defaults, score it, and check the reply. `query` is the scoring call
   * made, if the fields could be read; `record` is what is appended to the
   * result, if anything.
   */
  method ScoreJob(job: Job, call: ScoreCall, minScore: int) returns (query: Option<ScoreQuery>, record: Option<ScoredJob>)
    ensures query == if job.Posting? then Some(ScoreQuery(Company(job), Title(job), Description(job))) else None
    ensures record == Evaluate(job, call, minScore)
  {
    query, record := None, None;
    if job.Posting? {
      var jobTitle := job.jobTitle.GetOr("Unknown Title");
      var companyName := job.name.GetOr("Unknown Company");
      var jobDescription := job.jobDesc.GetOr("");
      var jobId := job.jobId.GetOr("");
      query := Some(ScoreQuery(companyName, jobTitle, jobDescription));
      if call.Returns? {
        var scoreStr := if call.reply.Some? && call.reply.value != [] then Strip(call.reply.value) else "0";
        assert scoreStr == Normalize(call.reply);
        if IsDigits(scoreStr) {
          var score := Value(scoreStr);
          if score >= minScore {
            assert jobTitle == Title(job) && companyName == Company(job) && jobId == Id(job);
            record := Some(ScoredJob(jobTitle, companyName, scoreStr, JobUrl(jobId)));
          }
        }
      }
    }
  }

  /** One more position appends its value, if any. */
  lemma KeptStep<T>(outcomes: seq<Option<T>>, i: nat)
    requires i < |outcomes|
    ensures Kept(outcomes[..i + 1]) == Kept(outcomes[..i]) + outcomes[i].ToSeq()
  {
    assert outcomes[..i + 1][..i] == outcomes[..i];
  }

  /** One more position: a snapshot is taken when it holds a record and the
      rewrite succeeds. */
  lemma SnapshotsStep(outcomes: seq<Option<ScoredJob>>, saves: seq<bool>, i: nat)
    requires |saves| == |outcomes| && i < |outcomes|
    ensures Snapshots(outcomes[..i + 1], saves[..i + 1])
         == Snapshots(outcomes[..i], saves[..i])
            + (if outcomes[i].Some? && saves[i] then [Kept(outcomes[..i + 1])] else [])
  {
    assert outcomes[..i + 1][..i] == outcomes[..i];
    assert saves[..i + 1][..i] == saves[..i];
  }

  /** The records kept are exactly those of `outcomes`, in order: their
      positions increase, and every position holding a record is among them. */
  lemma KeptSelection<T>(outcomes: seq<Option<T>>)
    ensures var picks := KeptIndices(outcomes);
      var kept := Kept(outcomes);
      && |picks| == |kept| <= |outcomes|
      && (forall k :: 0 <= k < |picks| ==> picks[k] < |outcomes| && outcomes[picks[k]] == Some(kept[k]))
      && (forall k, l :: 0 <= k < l < |picks| ==> picks[k] < picks[l])
      && (forall i :: 0 <= i < |outcomes| ==> (outcomes[i].Some? <==> i in picks))
  {
    KeptIndicesLocate(outcomes);
    KeptIndicesIncreasing(outcomes);
    KeptIndicesComplete(outcomes);
  }

  /** The k-th position picked holds the k-th record kept. */
  lemma {:induction false} KeptIndicesLocate<T>(outcomes: seq<Option<T>>)
    ensures var picks := KeptIndices(outcomes);
      var kept := Kept(outcomes);
      && |picks| == |kept| <= |outcomes|
      && (forall k :: 0 <= k < |picks| ==> picks[k] < |outcomes| && outcomes[picks[k]] == Some(kept[k]))
  {
    if outcomes != [] {
      var n := |outcomes| - 1;
      var pre := outcomes[..n];
      KeptIndicesLocate(pre);
      if outcomes[n].Some? {
        assert KeptIndices(outcomes) == KeptIndices(pre) + [n];
        assert Kept(outcomes) == Kept(pre) + [outcomes[n].value];
      } else {
        assert KeptIndices(outcomes) == KeptIndices(pre);
        assert Kept(outcomes) == Kept(pre);
      }
    }
  }

  lemma {:induction false} KeptIndicesIncreasing<T>(outcomes: seq<Option<T>>)
    ensures var picks := KeptIndices(outcomes);
      forall k, l :: 0 <= k < l < |picks| ==> picks[k] < picks[l]
  {
    if outcomes != [] {
      var n := |outcomes| - 1;
      var pre := outcomes[..n];
      KeptIndicesIncreasing(pre);
      KeptIndicesLocate(pre);
    }
  }

  lemma {:induction false} KeptIndicesComplete<T>(outcomes: seq<Option<T>>)
    ensures var picks := KeptIndices(outcomes);
      forall i :: 0 <= i < |outcomes| ==> (outcomes[i].Some? <==> i in picks)
  {
    if outcomes != [] {
      var n := |outcomes| - 1;
      var pre := outcomes[..n];
      var earlier, last := KeptIndices(pre), if outcomes[n].Some? then [n] else [];
      assert KeptIndices(outcomes) == earlier + last;
      KeptIndicesComplete(pre);
      KeptIndicesLocate(pre);
      forall i | 0 <= i < |outcomes|
        ensures outcomes[i].Some? <==> i in earlier + last
      {
        if i < n {
          assert outcomes[i] == pre[i];
          assert i !in last;
        } else {
          assert i !in earlier;
        }
      }
    }
  }

  /** The result is exactly the subsequence of the accepted postings: their
      positions in `models` increase, each record is the one its posting
      yields, and every posting that yields a record is among them. */
  lemma AcceptedSelection(models: seq<Job>, calls: seq<ScoreCall>, minScore: int)
    requires |calls| == |models|
    ensures var picks := KeptIndices(Outcomes(models, calls, minScore));
      var accepted := Accepted(models, calls, minScore);
      && |picks| == |accepted| <= |models|
      && (forall k :: 0 <= k < |picks| ==>
            picks[k] < |models| && Evaluate(models[picks[k]], calls[picks[k]], minScore) == Some(accepted[k]))
      && (forall k, l :: 0 <= k < l < |picks| ==> picks[k] < picks[l])
      && (forall i :: 0 <= i < |models| ==> (Evaluate(models[i], calls[i], minScore).Some? <==> i in picks))
  {
    KeptSelection(Outcomes(models, calls, minScore));
  }

  /** Keeping the records of a concatenation keeps those of each part. */
  lemma {:induction false} KeptAppend<T>(a: seq<Option<T>>, b: seq<Option<T>>)
    ensures Kept(a + b) == Kept(a) + Kept(b)
  {
    if b == [] {
      assert a + b == a;
      assert Kept(a) + [] == Kept(a);
    } else {
      var n := |b| - 1;
      assert a + b == (a + b[..n]) + [b[n]];
      assert b == b[..n] + [b[n]];
      KeptSnoc(a + b[..n], b[n]);
      KeptSnoc(b[..n], b[n]);
      KeptAppend(a, b[..n]);
      Assoc(Kept(a), Kept(b[..n]), b[n].ToSeq());
    }
  }

  /** One more position appends its record, if any. */
  lemma KeptSnoc<T>(outcomes: seq<Option<T>>, o: Option<T>)
    ensures Kept(outcomes + [o]) == Kept(outcomes) + o.ToSeq()
  {
    assert (outcomes + [o])[..|outcomes|] == outcomes;
  }

  /** The outcomes of a concatenation are those of each part. */
  lemma OutcomesAppend(a: seq<Job>, ca: seq<ScoreCall>, b: seq<Job>, cb: seq<ScoreCall>, minScore: int)
    requires |ca| == |a| && |cb| == |b|
    ensures Outcomes(a + b, ca + cb, minScore) == Outcomes(a, ca, minScore) + Outcomes(b, cb, minScore)
  {
    var all := Outcomes(a + b, ca + cb, minScore);
    OutcomesFront(a, ca, b, cb, minScore);
    OutcomesBack(a, ca, b, cb, minScore);
    assert all == all[..|a|] + all[|a|..];
  }

  lemma OutcomesFront(a: seq<Job>, ca: seq<ScoreCall>, b: seq<Job>, cb: seq<ScoreCall>, minScore: int)
    requires |ca| == |a| && |cb| == |b|
    ensures Outcomes(a + b, ca + cb, minScore)[..|a|] == Outcomes(a, ca, minScore)
  {
    var all := Outcomes(a + b, ca + cb, minScore);
    forall i | 0 <= i < |a|
      ensures all[i] == Evaluate(a[i], ca[i], minScore)
    {
      assert (a + b)[i] == a[i] && (ca + cb)[i] == ca[i];
    }
  }

  lemma OutcomesBack(a: seq<Job>, ca: seq<ScoreCall>, b: seq<Job>, cb: seq<ScoreCall>, minScore: int)
    requires |ca| == |a| && |cb| == |b|
    ensures Outcomes(a + b, ca + cb, minScore)[|a|..] == Outcomes(b, cb, minScore)
  {
    var all := Outcomes(a + b, ca + cb, minScore);
    forall i | 0 <= i < |b|
      ensures all[|a| + i] == Evaluate(b[i], cb[i], minScore)
    {
      assert (a + b)[|a| + i] == b[i] && (ca + cb)[|a| + i] == cb[i];
    }
  }

  /** A position without a record leaves no trace among the records kept. */
  lemma KeptSkipsNone<T>(a: seq<Option<T>>, b: seq<Option<T>>)
    ensures Kept(a + [None] + b) == Kept(a) + Kept(b)
  {
    var none: Option<T> := None;
    KeptAppend(a + [none], b);
    KeptSnoc(a, none);
    assert Kept(a) + [] == Kept(a);
  }

  /** A posting that is skipped (rejected, unreadable, or whose scoring call
      raises) leaves no trace, and the postings after it are processed as if
      it were not there. */
  lemma SkippedJobLeavesNoTrace(a: seq<Job>, ca: seq<ScoreCall>, job: Job, call: ScoreCall,
                                b: seq<Job>, cb: seq<ScoreCall>, minScore: int)
    requires |ca| == |a| && |cb| == |b|
    requires Evaluate(job, call, minScore).None?
    ensures Accepted(a + [job] + b, ca + [call] + cb, minScore) == Accepted(a, ca, minScore) + Accepted(b, cb, minScore)
  {
    var oa, ob := Outcomes(a, ca, minScore), Outcomes(b, cb, minScore);
    OutcomesAppend(a + [job], ca + [call], b, cb, minScore);
    OutcomesAppend(a, ca, [job], [call], minScore);
    assert Outcomes([job], [call], minScore) == [None];
    assert Outcomes(a + [job] + b, ca + [call] + cb, minScore) == oa + [None] + ob;
    KeptSkipsNone(oa, ob);
  }

  /** Every snapshot written is a non-empty prefix of the final result, and
      each one is longer than the one before. */
  lemma {:induction false} SnapshotsArePrefixes(outcomes: seq<Option<ScoredJob>>, saves: seq<bool>)
    requires |saves| == |outcomes|
    ensures var snaps := Snapshots(outcomes, saves);
      var kept := Kept(outcomes);
      && |snaps| <= |kept|
      && (forall k :: 0 <= k < |snaps| ==> 0 < |snaps[k]| <= |kept| && snaps[k] == kept[..|snaps[k]|])
      && (forall k, l :: 0 <= k < l < |snaps| ==> |snaps[k]| < |snaps[l]|)
  {
    if outcomes != [] {
      var n := |outcomes| - 1;
      SnapshotsArePrefixes(outcomes[..n], saves[..n]);
      var earlier := Kept(outcomes[..n]);
      assert Kept(outcomes)[..|earlier|] == earlier;
    }
  }

  /** When every rewrite succeeds, the k-th snapshot is exactly the first k
      records kept, and the last one is the whole result. */
  lemma {:induction false} SnapshotsWhenAllSaved(outcomes: seq<Option<ScoredJob>>, saves: seq<bool>)
    requires |saves| == |outcomes|
    requires forall i :: 0 <= i < |saves| ==> saves[i]
    ensures var snaps := Snapshots(outcomes, saves);
      var kept := Kept(outcomes);
      && |snaps| == |kept|
      && (forall k :: 0 <= k < |snaps| ==> snaps[k] == kept[..k + 1])
  {
    if outcomes != [] {
      var n := |outcomes| - 1;
      SnapshotsWhenAllSaved(outcomes[..n], saves[..n]);
      var earlier := Kept(outcomes[..n]);
      var kept := Kept(outcomes);
      assert kept[..|earlier|] == earlier;
      var snaps := Snapshots(outcomes[..n], saves[..n]);
      forall k | 0 <= k < |snaps|
        ensures snaps[k] == kept[..k + 1]
      {
        assert earlier[..k + 1] == kept[..|earlier|][..k + 1];
      }
    }
  }

  /** Every posting whose fields can be read is scored exactly once, in input
      order, with the defaults for its absent fields, and an entry that is not
      a mapping is not scored: the positions of the postings scored increase,
      the k-th call is made for the k-th of them, and a position is among them
      exactly when its entry is a mapping. */
  lemma EveryPostingScored(models: seq<Job>)
    ensures var asked := KeptIndices(seq(|models|, i requires 0 <= i < |models| => Query(models[i])));
      var queries := Queries(models);
      && |asked| == |queries| <= |models|
      && (forall k :: 0 <= k < |asked| ==>
            && asked[k] < |models| && models[asked[k]].Posting?
            && queries[k] == ScoreQuery(Company(models[asked[k]]), Title(models[asked[k]]), Description(models[asked[k]])))
      && (forall k, l :: 0 <= k < l < |asked| ==> asked[k] < asked[l])
      && (forall i :: 0 <= i < |models| ==> (models[i].Posting? <==> i in asked))
  {
    KeptSelection(seq(|models|, i requires 0 <= i < |models| => Query(models[i])));
  }

  /** A readable posting whose scoring call returns is accepted exactly when
      the checked reply is the decimal numeral of some `n >= minScore`, with
      any number of leading zeros. */
  lemma AcceptedIffNumeral(job: Job, reply: Option<string>, minScore: int)
    requires job.Posting?
    ensures Evaluate(job, Returns(reply), minScore).Some?
        <==> exists z, n: nat :: n >= minScore && Normalize(reply) == Zeros(z) + ShowNat(n)
  {
    NumeralForm(Normalize(reply), minScore);
  }

  /** A reply without surrounding whitespace is checked as it is. */
  lemma EvaluateTrimmedReply(job: Job, reply: string, minScore: int)
    requires job.Posting? && reply != [] && !IsWhitespace(reply[0]) && !IsWhitespace(reply[|reply| - 1])
    ensures Evaluate(job, Returns(Some(reply)), minScore)
         == if Passes(reply, minScore) then Some(ScoredJob(Title(job), Company(job), reply, JobUrl(Id(job)))) else None
  {
    StripKeepsTrimmed(reply);
  }

  /** A falsy reply counts as the score `"0"`, which is also what the scorer
      returns when its own call fails: such a reply is accepted, with score
      `"0"`, exactly when the threshold is at most 0. */
  lemma FalsyReplyScoresZero(job: Job, reply: Option<string>, minScore: int)
    requires job.Posting?
    requires reply.None? || reply.value == [] || reply.value == "0"
    ensures Evaluate(job, Returns(reply), minScore).Some? <==> minScore <= 0
    ensures Evaluate(job, Returns(reply), minScore).Some? ==> Evaluate(job, Returns(reply), minScore).value.score == "0"
  {
    StripKeepsTrimmed("0");
    assert "0"[..0] == [];
  }

  /** A reply made only of whitespace is not falsy, so it is not read as
      `"0"`: it strips to the empty string, which is not a digit string, and
      the posting is rejected whatever the threshold. */
  lemma BlankReplyRejected(job: Job, reply: string, minScore: int)
    requires reply != [] && AllWhitespace(reply)
    ensures Evaluate(job, Returns(Some(reply)), minScore).None?
  {
    StripEmptyIffBlank(reply);
  }
}
