# NUWorks co-op grader: score-and-filter and deep links

The scraper fetches the co-op postings of the last seven days from the
career-services job board, asks a language model to grade each posting from
0 to 100, and keeps the postings whose grade reaches a threshold (50 by
default). Each kept posting becomes a record with its title, its company, the
grade text and a deep link back to the job board. After each record is
kept, the output file is rewritten with every record kept so far.

This project models the two parts of `main.py` that have behaviour of their
own:

- `JobScraper.process_jobs` is modelled as the method `JobScraper.ProcessJobs`,
  a `for` loop over the postings. Its loop body is factored out as
  `JobScraper.ScoreJob`.
  - The loop is proved against pure specification functions:
    - `Evaluate`: what one posting yields;
    - `Accepted`: the records kept, in order;
    - `Queries`: the scoring calls made;
    - `Snapshots`: the successive contents of the output file.
  - The scorer is an input. `calls[i]` says whether the scoring call for the
    i-th posting raised or returned a reply, which may be `None`.
  - The file system is an input too. `saves[i]` says whether the rewrite of
    the output file after the i-th posting succeeded.
  - The scoring calls made and the snapshots written are ghost outputs.
- `JobScraper.generate_job_url` is the function `JobLinks.JobUrl`. It is a
  fixed, ordered list of `key=value` pairs joined with `&`, after the
  search-page URL and `?`.

Supporting modules:

- `Text` holds Python's `str.strip`, with its full set of whitespace
  characters, and `str.isdigit`, `int()` and `f"{n}"` on the ASCII digits.
- `Wrappers` holds `Option` and `dict.get`-style defaults.
- `Sequences` holds the associativity of concatenation.
- `Scenarios` holds concrete cases worked out as lemmas.

Two points follow the code:

- A falsy reply (`None` or the empty string) is read as `"0"`. It is not
  treated as an invalid reply. So with a threshold of 0 or below it is
  accepted, with score `"0"`.
- A reply made only of whitespace is not falsy. It strips to the empty
  string and is rejected as not a digit string.

## Model

| member | source | states |
|---|---|---|
| JobScraper.ProcessJobs | main.py:113-160 | A missing response or a response without `models` yields no records, no scoring calls and no writes. Otherwise:<br>• the result is `Accepted` of the postings, in input order, and is no longer than the input;<br>• the scoring calls are `Queries` of the postings;<br>• the file contents written are `Snapshots` of the outcomes;<br>• each snapshot is a non-empty prefix of the result. |
| JobScraper.Evaluate | main.py:125-146 | What one pass of the loop body appends, as a value. Its contract is stated by `AcceptedRecord`, `AcceptedIffNumeral`, `FalsyReplyScoresZero` and `BlankReplyRejected`, and `ScoreJob` is proved to compute it. |
| JobScraper.ScoreJob | main.py:125-153 | One pass of the loop body. A posting whose fields can be read makes exactly one scoring call, with the defaulted company, title and description. The record it appends is exactly `Evaluate` of the posting and the call. |
| JobScraper.AcceptedRecord | main.py:126-146 | A record is produced only when the posting is readable and the scoring call returned. Its score is a digit string whose value is at least `min_score`. It holds the defaulted title and company, the normalised reply, and the link built from the defaulted id. |
| JobScraper.Normalize | main.py:135 | A falsy reply becomes `"0"`. Any other reply becomes its stripped text. The result never starts or ends with whitespace. |
| JobScraper.AcceptedSelection | main.py:124-146 | The result is exactly the subsequence of accepted postings:<br>• the positions it picks increase;<br>• the k-th record is what its posting yields;<br>• a posting yields a record if and only if its position is picked. |
| JobScraper.KeptSelection | main.py:124-146 | The same characterisation for any sequence of per-posting outcomes: the kept records are the present ones, in order, and none is missing. |
| JobScraper.KeptIndicesLocate | main.py:146 | The k-th picked position holds the k-th kept record. |
| JobScraper.KeptIndicesIncreasing | main.py:124 | Picked positions are strictly increasing, so input order is kept. |
| JobScraper.KeptIndicesComplete | main.py:137-146 | A position is picked if and only if it yields a record. |
| JobScraper.KeptAppend | main.py:124-146 | Filtering a concatenation filters each part and concatenates the results. |
| JobScraper.OutcomesAppend | main.py:124-157 | Each posting's outcome depends only on that posting and its own scoring call. |
| JobScraper.SkippedJobLeavesNoTrace | main.py:124-157 | A posting that is rejected, unreadable or whose scoring call raises leaves no trace. The postings after it are processed as if it were absent. |
| JobScraper.SnapshotsArePrefixes | main.py:146-148 | Every snapshot written is a non-empty prefix of the final result, and each snapshot is strictly longer than the one before. |
| JobScraper.SnapshotsWhenAllSaved | main.py:146-148 | When every rewrite succeeds, the k-th snapshot is exactly the first k accepted records, and there is one snapshot per record. |
| JobScraper.EveryPostingScored | main.py:124-134 | For any list of entries, the scoring calls correspond one to one, in input order, to the entries that are mappings:<br>• the positions scored increase;<br>• the k-th call carries the defaulted company, title and description of the k-th of them;<br>• an entry is scored if and only if it is a mapping. |
| JobScraper.AcceptedIffNumeral | main.py:135-139 | A readable posting whose call returns is accepted if and only if the normalised reply is some leading zeros followed by the decimal numeral of an `n >= min_score`. |
| JobScraper.EvaluateTrimmedReply | main.py:135-146 | A reply with no surrounding whitespace is checked and stored verbatim. |
| JobScraper.FalsyReplyScoresZero | main.py:135-139 | A `None`, empty or `"0"` reply is accepted if and only if `min_score <= 0`, and then with score `"0"`. `"0"` is also what the scorer returns when its own call fails. |
| JobScraper.BlankReplyRejected | main.py:135-137 | A non-empty all-whitespace reply is rejected whatever the threshold. |
| JobLinks.JobUrl | main.py:97-111 | The deep link, built as `"&".join` of the `k=v` pairs after the search-page URL and `?`. Its contract is stated by `JobUrlSpelledOut` and `JobUrlRecoversId`. |
| JobLinks.JobUrlSpelledOut | main.py:97-111 | The link is the search-page URL followed by `?perPage=100&page=1&sort=!postdate&ocr=f&job_type=5&industry=<codes>&postdate=7&currentJobId=` and then the id, unencoded. |
| JobLinks.JobUrlRecoversId | main.py:97-111 | The id is the suffix of the link after that fixed prefix, so distinct ids give distinct links. |
| JobLinks.LinkMirrorsFetch | main.py:53-63 | The link repeats the first seven search parameters in order, except that `page` is 1 where the search asks for 0. It drops `json_mode` and `enable_translation` and ends with `currentJobId`. |
| JobLinks.ParamStringSnoc | main.py:110 | Joining one more `k=v` pair appends `&k=v`. |
| JobLinks.FormatNum | main.py:110 | An integer parameter is written as a digit string that reads back as the integer, with no leading zero. |
| Text.StripSlice | main.py:135 | `strip` returns the slice of the text left after removing the whitespace at both ends. |
| Text.TrimLeftSuffix | main.py:135 | `lstrip` removes exactly the leading whitespace. |
| Text.TrimRightPrefix | main.py:135 | `rstrip` removes exactly the trailing whitespace. |
| Text.StripKeepsTrimmed | main.py:135 | Text without surrounding whitespace is unchanged by `strip`. |
| Text.StripEmptyIffBlank | main.py:135-137 | `strip` yields the empty string if and only if the text is all whitespace. |
| Text.ValueOfShowNat | main.py:138 | `int(f"{n}") == n`. |
| Text.ShowNatOfValue | main.py:138 | A digit string without a leading zero, or `"0"` itself, is the numeral of its value. |
| Text.ValueLeadingZeros | main.py:138 | Leading zeros do not change `int()`. |
| Text.DigitsCanonical | main.py:137-138 | Every digit string is some zeros followed by the numeral of its value. |
| Text.NumeralForm | main.py:137-139 | Passing the digit check and the threshold is the same as being leading zeros followed by the numeral of some `n >= m`. |
| Scenarios.ThresholdBoundary | main.py:137-139 | At the default threshold, `"100"` and `"50"` are accepted and `"49"` and `"0"` are rejected. |
| Scenarios.NonNumericRejected | main.py:137-153 | `"N/A"`, `"-5"` and `"7.5"` are rejected at any threshold. |
| Scenarios.PaddedReplyStripped | main.py:135 | `" 080\n"` is checked as `"080"`. |
| Scenarios.WideSpaceStripped | main.py:135 | A reply wrapped in a no-break space and an ideographic space is checked as `"80"`. |
| Scenarios.ScoreTextKept | main.py:143 | `"080"` is accepted and stored as `"080"`, not as `"80"`. |
| Scenarios.MissingFieldsQueried | main.py:126-134 | A posting with none of the four keys is scored with `"Unknown Company"`, `"Unknown Title"` and `""`. |
| Scenarios.UnreadableEntryNotScored | main.py:124-134 | In the list `[not a mapping, posting]`, only the posting is scored. |
| Scenarios.MissingFieldsAccepted | main.py:126-146 | Such a posting with reply `"75"` is accepted with the placeholders and the link for the empty id. |
| Scenarios.ThreePostingRun | main.py:124-146 | Postings scored 80, 30 and 60 against 50 give the first and third records, in that order. |

## Left out

- `fetch_jobs`, `save_response`, `save_good_jobs` and `main` (main.py:65-95, 162-197) are left out as network and file I/O and process plumbing. The file rewrites inside `process_jobs` appear only as the snapshot sequence and the `saves` input.
- JSON encoding of the output file is left out. A snapshot is the list of records, not its serialised text.
- A rewrite that fails part way is not modelled: it may leave a partially written file. The model records only the snapshots of rewrites that succeed. A failed rewrite raises after the record was appended, so the record stays in the result and later postings are still processed.
- fetchOpenAi.py is not part of this model. It wraps a foreign language-model client, so each scoring call is an input: it raised, or it returned a reply. The scorer's own failure path returns `"0"`, which is covered by `FalsyReplyScoresZero`.
- Logging and environment configuration (main.py:16-33) are left out.
- Text.IsDigits: only the ASCII digits `0`-`9` are digits, and every other character counts as a non-digit. Python's `str.isdigit` is wider. It accepts the decimal digits of every script, such as fullwidth `８０` or Arabic-Indic `٨٠`. `int()` reads those as 80, so main.py:137-146 accepts such a reply and stores it as written, but the model rejects it. `isdigit` also accepts digit characters that are not decimal, such as `²`. `int()` raises on those, and the per-posting `except` (main.py:155-157) skips the posting, which is what the model does.
- Text.Value: no limit on length. From Python 3.11 (and in the security releases of 3.7-3.10), `int()` raises on a string of more than 4300 digits, so main.py:155-157 skips that posting. The model accepts it when its value reaches the threshold. The limit depends on the interpreter version and its settings.
- A key that is present with value `None` is not modelled. `job.get` would pass the `None` through instead of the default. A field is either a string or absent.
- An entry of `models` that is not a dictionary is modelled as `NotAMapping`, whose field reads raise. A `models` value that is not a list at all is not modelled.
- The log line that reports `len(good_jobs)` is left out.
