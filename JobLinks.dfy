/**
 * The deep link into the career-services search page that each accepted
 * posting carries (`JobScraper.generate_job_url`), and the query of the
 * job-search request it mirrors (`JobScraper.params`).
 */
module JobLinks {
  import opened Sequences
  import opened Text

  const BaseUrl := "https://northeastern-csm.symplicity.com"
  const JobUrlTemplate := BaseUrl + "/students/app/jobs/search"

  /** A query-parameter value as the Python source writes it: an integer, a string or a boolean. */
  datatype ParamValue = Num(n: nat) | Str(s: string) | Flag(b: bool)

  /** `f"{v}"`: the decimal numeral of an integer, a string itself, `True` or `False`. */
  function Format(v: ParamValue): string {
    match v
    case Num(n) => ShowNat(n)
    case Str(s) => s
    case Flag(b) => if b then "True" else "False"
  }

  /** An integer parameter is written as its canonical decimal numeral, which reads back as the integer. */
  lemma FormatNum(n: nat)
    ensures var r := Format(Num(n)); IsDigits(r) && Value(r) == n && (r[0] == '0' ==> n == 0)
  {
    ValueOfShowNat(n);
  }

  /** The industry category codes both queries restrict to. */
  const Industries := "112,147,24,109,83,116,141,142,143,89,105,104,97"

  /** The query of the job-search request, in the order of the dictionary literal. */
  const FetchParams: seq<(string, ParamValue)> := [
    ("perPage", Num(100)),
    ("page", Num(0)),
    ("sort", Str("!postdate")),
    ("ocr", Str("f")),
    ("job_type", Num(5)),
    ("industry", Str(Industries)),
    ("postdate", Num(7)),
    ("json_mode", Str("read_only")),
    ("enable_translation", Flag(false))
  ]

  /** The query of the deep link to one posting, in the order of the dictionary literal. */
  function LinkParams(jobId: string): seq<(string, ParamValue)> {
    [
      ("perPage", Num(100)),
      ("page", Num(1)),
      ("sort", Str("!postdate")),
      ("ocr", Str("f")),
      ("job_type", Num(5)),
      ("industry", Str(Industries)),
      ("postdate", Num(7)),
      ("currentJobId", Str(jobId))
    ]
  }

  /** `f"{k}={v}"` for one parameter. */
  function Pair(kv: (string, ParamValue)): string {
    kv.0 + "=" + Format(kv.1)
  }

  /** `"&".join([f"{k}={v}" for k, v in params.items()])`: each parameter as
      `k=v`, in order, with `&` between neighbours. */
  function ParamString(params: seq<(string, ParamValue)>): string {
    if params == [] then []
    else if |params| == 1 then Pair(params[0])
    else Pair(params[0]) + "&" + ParamString(params[1..])
  }

  /** `generate_job_url(job_id)`: the search page, `?`, then the parameter
      string; the id is inserted as it is, with no percent-encoding. */
  function JobUrl(jobId: string): string {
    JobUrlTemplate + "?" + ParamString(LinkParams(jobId))
  }

  /** Everything of a deep link that precedes the job id, spelled out. */
  const LinkPrefix := JobUrlTemplate + "?"
    + ("perPage" + "=" + "100") + "&" + ("page" + "=" + "1") + "&" + ("sort" + "=" + "!postdate")
    + "&" + ("ocr" + "=" + "f") + "&" + ("job_type" + "=" + "5") + "&" + ("industry" + "=" + Industries)
    + "&" + ("postdate" + "=" + "7") + "&" + ("currentJobId" + "=")

  /** The deep link is the fixed prefix followed by the raw job id. */
  lemma JobUrlSpelledOut(jobId: string)
    ensures JobUrl(jobId) == LinkPrefix + jobId
  {
    var t, ps := JobUrlTemplate + "?", LinkParams(jobId);
    LinkPairs(jobId);
    assert ps[..1] == [ps[0]] && ps[..8] == ps;
    ParamStringPrefixStep(t, ps, 1);
    ParamStringPrefixStep(t, ps, 2);
    ParamStringPrefixStep(t, ps, 3);
    ParamStringPrefixStep(t, ps, 4);
    ParamStringPrefixStep(t, ps, 5);
    ParamStringPrefixStep(t, ps, 6);
    ParamStringPrefixStep(t, ps, 7);
    var front := t
      + ("perPage" + "=" + "100") + "&" + ("page" + "=" + "1") + "&" + ("sort" + "=" + "!postdate")
      + "&" + ("ocr" + "=" + "f") + "&" + ("job_type" + "=" + "5") + "&" + ("industry" + "=" + Industries)
      + "&" + ("postdate" + "=" + "7") + "&";
    assert JobUrl(jobId) == front + ("currentJobId" + "=" + jobId);
    Assoc(front, "currentJobId" + "=", jobId);
  }

  /** One more parameter appends `&` and its `k=v`. */
  lemma {:induction false} ParamStringSnoc(params: seq<(string, ParamValue)>, kv: (string, ParamValue))
    requires params != []
    ensures ParamString(params + [kv]) == ParamString(params) + "&" + Pair(kv)
  {
    if |params| == 1 {
      assert (params + [kv])[1..] == [kv];
    } else {
      var head, rest := Pair(params[0]) + "&", ParamString(params[1..]);
      assert (params + [kv])[1..] == params[1..] + [kv];
      ParamStringSnoc(params[1..], kv);
      Assoc(head, rest + "&", Pair(kv));
      Assoc(head, rest, "&");
    }
  }

  /** The string of the first `k + 1` parameters, after `t`, is that of the
      first `k`, `&`, and the next parameter's `k=v`. */
  lemma ParamStringPrefixStep(t: string, ps: seq<(string, ParamValue)>, k: nat)
    requires 1 <= k < |ps|
    ensures t + ParamString(ps[..k + 1]) == t + ParamString(ps[..k]) + "&" + Pair(ps[k])
  {
    assert ps[..k + 1] == ps[..k] + [ps[k]];
    ParamStringSnoc(ps[..k], ps[k]);
    Assoc(t, ParamString(ps[..k]) + "&", Pair(ps[k]));
    Assoc(t, ParamString(ps[..k]), "&");
  }

  /** Each `k=v` of the deep link, written out. */
  lemma LinkPairs(jobId: string)
    ensures var ps := LinkParams(jobId);
      && |ps| == 8
      && Pair(ps[0]) == "perPage" + "=" + "100" && Pair(ps[1]) == "page" + "=" + "1"
      && Pair(ps[2]) == "sort" + "=" + "!postdate" && Pair(ps[3]) == "ocr" + "=" + "f"
      && Pair(ps[4]) == "job_type" + "=" + "5" && Pair(ps[5]) == "industry" + "=" + Industries
      && Pair(ps[6]) == "postdate" + "=" + "7" && Pair(ps[7]) == "currentJobId" + "=" + jobId
  {
    ShowSmall();
  }

  /** The numerals of the integer parameters. */
  lemma ShowSmall()
    ensures Format(Num(100)) == "100" && Format(Num(1)) == "1" && Format(Num(5)) == "5" && Format(Num(7)) == "7"
  {
    assert ShowNat(10) == "10";
  }

  /** The job id can be read back from the end of its deep link, so distinct
      ids give distinct links. */
  lemma JobUrlRecoversId(a: string, b: string)
    ensures |LinkPrefix| <= |JobUrl(a)| && JobUrl(a)[|LinkPrefix|..] == a
    ensures JobUrl(a) == JobUrl(b) ==> a == b
  {
    JobUrlSpelledOut(a);
    JobUrlSpelledOut(b);
    assert (LinkPrefix + a)[|LinkPrefix|..] == a;
    assert (LinkPrefix + b)[|LinkPrefix|..] == b;
  }

  /** The link repeats the search request's first seven parameters in the
      same order, except that `page` is 1 where the request asks for page 0;
      it drops `json_mode` and `enable_translation` and ends with `currentJobId`. */
  lemma LinkMirrorsFetch(jobId: string)
    ensures |FetchParams| == 9 && |LinkParams(jobId)| == 8
    ensures LinkParams(jobId)[..7] == FetchParams[..7][1 := ("page", Num(1))]
    ensures FetchParams[1] == ("page", Num(0))
    ensures FetchParams[7].0 == "json_mode" && FetchParams[8].0 == "enable_translation"
    ensures LinkParams(jobId)[7] == ("currentJobId", Str(jobId))
  {
  }
}
