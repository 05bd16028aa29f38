/**
 * Worked examples of the score check and the threshold filter, on concrete
 * replies: the threshold boundary, replies that are not numbers, a score
 * with a leading zero, a posting with no fields, and a three-posting run.
 */
module Scenarios {
  import opened Wrappers
  import opened Text
  import opened JobLinks
  import opened JobScraper

  lemma ValueOfTwo(a: char, b: char)
    requires IsDigit(a) && IsDigit(b)
    ensures Value([a, b]) == 10 * DigitValue(a) + DigitValue(b)
  {
    assert [a, b][..1] == [a] && [a][..0] == [];
    assert Value([a]) == DigitValue(a);
  }

  lemma ValueOfThree(a: char, b: char, c: char)
    requires IsDigit(a) && IsDigit(b) && IsDigit(c)
    ensures Value([a, b, c]) == 100 * DigitValue(a) + 10 * DigitValue(b) + DigitValue(c)
  {
    assert [a, b, c][..2] == [a, b];
    ValueOfTwo(a, b);
  }

  /** Against the default threshold of 50, `"100"` and `"50"` are accepted
      while `"49"` and `"0"` are not. */
  lemma ThresholdBoundary(job: Job)
    requires job.Posting?
    ensures Evaluate(job, Returns(Some("100")), DefaultMinScore).Some?
    ensures Evaluate(job, Returns(Some("50")), DefaultMinScore).Some?
    ensures Evaluate(job, Returns(Some("49")), DefaultMinScore).None?
    ensures Evaluate(job, Returns(Some("0")), DefaultMinScore).None?
  {
    ValueOfThree('1', '0', '0');
    ValueOfTwo('5', '0');
    ValueOfTwo('4', '9');
    assert "0"[..0] == [];
    EvaluateTrimmedReply(job, "100", DefaultMinScore);
    EvaluateTrimmedReply(job, "50", DefaultMinScore);
    EvaluateTrimmedReply(job, "49", DefaultMinScore);
    EvaluateTrimmedReply(job, "0", DefaultMinScore);
  }

  /** A reply that is not a digit string is rejected whatever the threshold:
      a sign or a decimal point is not a digit. */
  lemma NonNumericRejected(job: Job, minScore: int)
    requires job.Posting?
    ensures Evaluate(job, Returns(Some("N/A")), minScore).None?
    ensures Evaluate(job, Returns(Some("-5")), minScore).None?
    ensures Evaluate(job, Returns(Some("7.5")), minScore).None?
  {
    EvaluateTrimmedReply(job, "N/A", minScore);
    EvaluateTrimmedReply(job, "-5", minScore);
    EvaluateTrimmedReply(job, "7.5", minScore);
    assert !IsDigit("N/A"[0]) && !IsDigit("-5"[0]) && !IsDigit("7.5"[1]);
  }

  /** Surrounding whitespace is removed before the check: `" 080\n"` is checked as `"080"`. */
  lemma PaddedReplyStripped()
    ensures Normalize(Some(" 080\n")) == "080"
  {
    assert TrimLeft(" 080\n") == "080\n" by {
      assert " 080\n"[1..] == "080\n";
    }
    assert TrimRight("080\n") == "080" by {
      assert "080\n"[..3] == "080";
    }
  }

  /** Whitespace beyond ASCII is stripped too: a reply wrapped in a no-break
      space and an ideographic space is checked as `"80"`. */
  lemma WideSpaceStripped()
    ensures Normalize(Some("\U{A0}80\U{3000}")) == "80"
  {
    assert TrimLeft("\U{A0}80\U{3000}") == "80\U{3000}" by {
      assert "\U{A0}80\U{3000}"[1..] == "80\U{3000}";
    }
    assert TrimRight("80\U{3000}") == "80" by {
      assert "80\U{3000}"[..2] == "80";
    }
  }

  /** The stored score is the checked reply text itself: `"080"` passes the
      threshold 50 as 80 and is stored as `"080"`, not `"80"`. */
  lemma ScoreTextKept(job: Job)
    requires job.Posting?
    ensures Evaluate(job, Returns(Some("080")), DefaultMinScore)
         == Some(ScoredJob(Title(job), Company(job), "080", JobUrl(Id(job))))
  {
    ValueOfThree('0', '8', '0');
    EvaluateTrimmedReply(job, "080", DefaultMinScore);
  }

  /** A posting with none of the four keys is scored with the placeholders. */
  lemma MissingFieldsQueried()
    ensures Queries([Posting(None, None, None, None)]) == [ScoreQuery("Unknown Company", "Unknown Title", "")]
  {
    var job := Posting(None, None, None, None);
    var asked := seq(1, i requires 0 <= i < 1 => Query([job][i]));
    assert asked == [] + [Query(job)];
    KeptSnoc([], Query(job));
  }

  /** An entry that is not a mapping is not scored; the posting after it is. */
  lemma UnreadableEntryNotScored(job: Job)
    requires job.Posting?
    ensures Queries([NotAMapping, job]) == [ScoreQuery(Company(job), Title(job), Description(job))]
  {
    var models := [NotAMapping, job];
    var asked := seq(2, i requires 0 <= i < 2 => Query(models[i]));
    assert asked == [None] + [Query(job)];
    KeptSnoc([None], Query(job));
    KeptSnoc<ScoreQuery>([], None);
  }

  /** A passing reply still gets a posting with none of the four keys
      accepted, with the placeholders and the link for the empty id. */
  lemma MissingFieldsAccepted(job: Job)
    requires job == Posting(None, None, None, None)
    ensures Id(job) == ""
    ensures Evaluate(job, Returns(Some("75")), DefaultMinScore)
         == Some(ScoredJob("Unknown Title", "Unknown Company", "75", JobUrl(Id(job))))
  {
    ValueOfTwo('7', '5');
    assert Passes("75", DefaultMinScore);
    assert Title(job) == "Unknown Title" && Company(job) == "Unknown Company";
    EvaluateTrimmedReply(job, "75", DefaultMinScore);
  }

  /** Three postings scored 80, 30 and 60 against the threshold 50: the
      result holds the first and the third, in that order. */
  lemma ThreePostingRun(j1: Job, j2: Job, j3: Job)
    requires j1.Posting? && j2.Posting? && j3.Posting?
    ensures Accepted([j1, j2, j3], [Returns(Some("80")), Returns(Some("30")), Returns(Some("60"))], DefaultMinScore)
         == [ScoredJob(Title(j1), Company(j1), "80", JobUrl(Id(j1))),
             ScoredJob(Title(j3), Company(j3), "60", JobUrl(Id(j3)))]
  {
    ValueOfTwo('8', '0');
    ValueOfTwo('3', '0');
    ValueOfTwo('6', '0');
    assert Passes("80", DefaultMinScore) && !Passes("30", DefaultMinScore) && Passes("60", DefaultMinScore);
    EvaluateTrimmedReply(j1, "80", DefaultMinScore);
    EvaluateTrimmedReply(j2, "30", DefaultMinScore);
    EvaluateTrimmedReply(j3, "60", DefaultMinScore);
    var r1 := ScoredJob(Title(j1), Company(j1), "80", JobUrl(Id(j1)));
    var r3 := ScoredJob(Title(j3), Company(j3), "60", JobUrl(Id(j3)));
    var models, calls := [j1, j2, j3], [Returns(Some("80")), Returns(Some("30")), Returns(Some("60"))];
    var outcomes := Outcomes(models, calls, DefaultMinScore);
    assert outcomes[0] == Evaluate(j1, Returns(Some("80")), DefaultMinScore) == Some(r1);
    assert outcomes[1] == Evaluate(j2, Returns(Some("30")), DefaultMinScore) == None;
    assert outcomes[2] == Evaluate(j3, Returns(Some("60")), DefaultMinScore) == Some(r3);
    KeptOfThree(outcomes);
  }

  /** The records kept from three positions. */
  lemma KeptOfThree(outcomes: seq<Option<ScoredJob>>)
    requires |outcomes| == 3
    ensures Kept(outcomes) == outcomes[0].ToSeq() + outcomes[1].ToSeq() + outcomes[2].ToSeq()
  {
    var o2 := outcomes[..2];
    var o1 := o2[..1];
    assert o1[..0] == [];
    assert o1[0] == outcomes[0] && o2[1] == outcomes[1];
    assert Kept(o1) == [] + outcomes[0].ToSeq();
    assert [] + outcomes[0].ToSeq() == outcomes[0].ToSeq();
    assert Kept(o2) == Kept(o1) + outcomes[1].ToSeq();
    assert Kept(outcomes) == Kept(o2) + outcomes[2].ToSeq();
  }
}
