/** The practice page and the browser's progress log: answering the
    question, the log each answer is appended to, the summary line, the
    sync of the log to the server, and the merge of the server's entries
    back into the log when a page loads. */
module Practice {
  import opened Common
  import opened Json
  import opened Text
  import opened Database
  import opened ProgressApi
  import opened Dashboard

  // ---------------------------------------------------------------- one attempt

  const Question: string := "7x6"
  const Expected: int := 42

  const HintText: string :=
    "Hint: 7 × 6 = 7 added 6 times or 6 added 7 times. Try breaking it down: 7 × 5 = 35, plus 7 = 42."

  /** The record of one answer: the question, the trimmed answer, whether
      it reads as 42 (`parsed` is `Number(raw)`, `None` for NaN) and the
      time it was given. */
  function Attempt(answer: string, parsed: Option<int>, now: int): (r: Json)
    ensures Get(r, "question") == Some(Str(Question)) && Get(r, "answer") == Some(Str(answer))
    ensures Get(r, "correct") == Some(Bool(parsed == Some(Expected))) && Get(r, "time") == Some(Num(now))
    ensures IsCorrect(r) <==> parsed == Some(Expected)
  {
    Obj(map["question" := Str(Question), "answer" := Str(answer),
            "correct" := Bool(parsed == Some(Expected)), "time" := Num(now)])
  }

  // ---------------------------------------------------------------- the summary line

  /** The entries of the log marked correct; never more than the log holds. */
  function CorrectCount(log: seq<Json>): (n: nat)
    ensures n <= |log|
  {
    CountIsFilterLength(log, IsCorrect);
    Count(log, IsCorrect)
  }

  /** `updateSummary`; `None` when a `null` entry makes the filter throw. */
  function Summary(log: seq<Json>): (text: Option<string>)
    ensures text.None? <==> !NoNullEntry(log)
    ensures text == Some("No activity yet.") <==> log == []
    ensures log != [] && NoNullEntry(log) ==>
      text == Some(CountsLine(NatToString(|log|), NatToString(CorrectCount(log))))
  {
    if log == [] then Some("No activity yet.")
    else if !NoNullEntry(log) then None
    else Some(CountsLine(NatToString(|log|), NatToString(CorrectCount(log))))
  }

  /** The summary line tells the number of attempts and of correct ones:
      two logs with the same line have the same two counts. */
  lemma SummaryDetermines(a: seq<Json>, b: seq<Json>)
    requires Summary(a).Some? && Summary(a) == Summary(b)
    ensures |a| == |b| && CorrectCount(a) == CorrectCount(b)
  {
    if a != [] {
      CountsLineInjective(NatToString(|a|), NatToString(CorrectCount(a)),
                          NatToString(|b|), NatToString(CorrectCount(b)));
      NatToStringInjective(|a|, |b|);
      NatToStringInjective(CorrectCount(a), CorrectCount(b));
    }
  }

  /** `Attempts: ${total}, Correct: ${correct}.` */
  function CountsLine(total: string, correct: string): string {
    "Attempts: " + (total + (", Correct: " + (correct + ".")))
  }

  lemma CountsLineInjective(x: string, y: string, x': string, y': string)
    requires forall i :: 0 <= i < |x| ==> IsDigit(x[i])
    requires forall i :: 0 <= i < |x'| ==> IsDigit(x'[i])
    requires CountsLine(x, y) == CountsLine(x', y')
    ensures x == x' && y == y'
  {
    var rest := " Correct: " + (y + ".");
    var rest' := " Correct: " + (y' + ".");
    var after := x + (", Correct: " + (y + "."));
    var after' := x' + (", Correct: " + (y' + "."));
    assert after == CountsLine(x, y)[10..];
    assert after' == CountsLine(x', y')[10..];
    assert after == x + [','] + rest;
    assert after' == x' + [','] + rest';
    DigitsThenSeparator(x, ',', rest, x', rest');
    assert y + "." == rest[10..];
    assert y' + "." == rest'[10..];
    assert y == (y + ".")[..|y|];
    assert y' == (y' + ".")[..|y'|];
  }

  // ---------------------------------------------------------------- merging server progress

  /** One server entry as the log keeps it: `question` defaults to `sync`,
      `answer` to the empty string and `correct` to false; `time` is
      `Date.parse(p.at || new Date())`, with `parseDate` the parse and
      `nowText` the current date as text. */
  function FromServer(p: Json, nowText: string, parseDate: Json -> Json): (r: Json)
    ensures Get(r, "question") == Some(Or(Get(p, "question"), Str("sync")))
    ensures Get(r, "answer") == Some(Or(Get(p, "answer"), Str("")))
    ensures Get(r, "correct") == Some(Or(Get(p, "correct"), Bool(false)))
    ensures Get(r, "time") == Some(parseDate(Or(Get(p, "at"), Str(nowText))))
  {
    Obj(map["question" := Or(Get(p, "question"), Str("sync")),
            "answer" := Or(Get(p, "answer"), Str("")),
            "correct" := Or(Get(p, "correct"), Bool(false)),
            "time" := parseDate(Or(Get(p, "at"), Str(nowText)))])
  }

  /** A merged entry is correct exactly when the server entry was. */
  lemma FromServerCorrect(p: Json, nowText: string, parseDate: Json -> Json)
    ensures IsCorrect(FromServer(p, nowText, parseDate)) <==> IsCorrect(p)
  {
  }

  /** The server's entries the page merges: those of an ok answer whose
      `progress` is a non-empty array with no `null` entry (a `null`
      entry makes the mapping throw, and the throw is ignored). */
  predicate Mergeable(f: Fetched) {
    f.Fetched? && f.ok && IsArray(Get(f.data, "progress"))
    && Get(f.data, "progress").value.items != []
    && NoNullEntry(Get(f.data, "progress").value.items)
  }

  /** The log after `progress.js`: the old log followed by one mapped entry
      per server entry, when the answer is mergeable; the old log
      otherwise. */
  function MergedLog(local: seq<Json>, f: Fetched, nowText: string, parseDate: Json -> Json): (r: seq<Json>)
    ensures !Mergeable(f) ==> r == local
    ensures Mergeable(f) ==>
      var progress := Get(f.data, "progress").value.items;
      |r| == |local| + |progress| && r[..|local|] == local
      && forall i :: 0 <= i < |progress| ==> r[|local| + i] == FromServer(progress[i], nowText, parseDate)
  {
    if !Mergeable(f) then local
    else
      var progress := Get(f.data, "progress").value.items;
      var mapped := seq(|progress|, (i: int) requires 0 <= i < |progress| => FromServer(progress[i], nowText, parseDate));
      assert (local + mapped)[..|local|] == local;
      local + mapped
  }

  /** The merged log's correct count adds the server entries marked
      correct to the local ones. */
  lemma {:induction false} MergedCorrect(local: seq<Json>, f: Fetched, nowText: string, parseDate: Json -> Json)
    requires Mergeable(f)
    ensures CorrectCount(MergedLog(local, f, nowText, parseDate))
      == CorrectCount(local) + CorrectCount(Get(f.data, "progress").value.items)
  {
    var progress := Get(f.data, "progress").value.items;
    var r := MergedLog(local, f, nowText, parseDate);
    var mapped := r[|local|..];
    assert r == local + mapped;
    CountAppend(local, mapped, IsCorrect);
    MappedCorrect(progress, mapped, nowText, parseDate);
  }

  lemma {:induction false} MappedCorrect(progress: seq<Json>, mapped: seq<Json>, nowText: string, parseDate: Json -> Json)
    requires |mapped| == |progress|
    requires forall i :: 0 <= i < |progress| ==> mapped[i] == FromServer(progress[i], nowText, parseDate)
    ensures Count(mapped, IsCorrect) == Count(progress, IsCorrect)
    decreases |progress|
  {
    if progress != [] {
      var n := |progress| - 1;
      MappedCorrect(progress[..n], mapped[..n], nowText, parseDate);
      FromServerCorrect(progress[n], nowText, parseDate);
    }
  }

  // ---------------------------------------------------------------- sync and the dashboard

  /** `{ items: stored }`, the body a sync posts. */
  function SyncBody(log: seq<Json>): (body: Json)
    ensures Get(body, "items") == Some(Arr(log))
  {
    Obj(map["items" := Arr(log)])
  }

  /** A synced log, once stored by the server and read back by the
      dashboard, counts there exactly as the summary line counts it. */
  lemma SyncedLogCounts(log: seq<Json>, row: ProgressRow, now: string)
    requires row.data == Stamped(now, SyncBody(log))
    ensures EntryItems(Shown(row)) == log
    ensures TotalAttempts([Shown(row)]) == |log|
    ensures CorrectAnswers([Shown(row)]) == CorrectCount(log)
  {
    assert Spread(SyncBody(log)) == map["items" := Arr(log)];
    assert Get(row.data, "items") == Some(Arr(log));
    assert Get(Shown(row), "items") == Some(Arr(log));
    assert [Shown(row)][..0] == [];
  }

  // ---------------------------------------------------------------- the page

  class PracticePage {
    /** The log under the `nth_progress` key of local storage. */
    var stored: seq<Json>
    var feedback: string
    var feedbackIsError: bool
    var summary: string
    /** Every body the page has posted to `/api/progress`. */
    var posted: seq<Json>

    /** The page loads with the log found in storage and shows its summary. */
    constructor (log: seq<Json>, text: string)
      ensures stored == log && posted == [] && feedback == "" && !feedbackIsError
      ensures summary == if Summary(log).Some? then Summary(log).value else text
    {
      stored := log;
      feedback := "";
      feedbackIsError := false;
      posted := [];
      summary := if Summary(log).Some? then Summary(log).value else text;
    }

    method ShowHint()
      modifies this
      ensures feedback == HintText && !feedbackIsError
      ensures stored == old(stored) && posted == old(posted) && summary == old(summary)
    {
      feedback := HintText;
      feedbackIsError := false;
    }

    /** The answer form. An answer that is empty once trimmed is refused and
        the log is left alone; any other answer is judged (correct exactly
        when it reads as 42) and appended to the log as one record, and the
        summary is redrawn. */
    method SubmitAnswer(raw: string, parse: string -> Option<int>, now: int)
      modifies this
      ensures posted == old(posted)
      ensures Trim(raw) == "" ==>
        stored == old(stored) && summary == old(summary)
        && feedback == "Please enter an answer." && feedbackIsError
      ensures Trim(raw) != "" ==>
        stored == old(stored) + [Attempt(Trim(raw), parse(Trim(raw)), now)]
        && !feedbackIsError
        && feedback == (if parse(Trim(raw)) == Some(Expected) then "Correct — 7 × 6 = 42. Nice work!"
                        else "Not quite — 7 × 6 = 42. Hint available.")
        && summary == (if Summary(stored).Some? then Summary(stored).value else old(summary))
    {
      var answer := Trim(raw);
      if answer == "" {
        feedback := "Please enter an answer.";
        feedbackIsError := true;
        return;
      }
      var numeric := parse(answer);
      var result := Attempt(answer, numeric, now);
      if numeric == Some(Expected) {
        feedback := "Correct — 7 × 6 = 42. Nice work!";
      } else {
        feedback := "Not quite — 7 × 6 = 42. Hint available.";
      }
      feedbackIsError := false;
      stored := stored + [result];
      var text := Summary(stored);
      if text.Some? {
        summary := text.value;
      }
    }

    /** The sync button. An empty log sends nothing; otherwise the whole
        log is posted once as `{ items: stored }` and the answer decides
        the message. */
    method Sync(answer: Fetched, toText: Json -> string) returns (body: Option<Json>)
      modifies this
      ensures stored == old(stored) && summary == old(summary)
      ensures body.None? <==> old(stored) == []
      ensures body.None? ==> posted == old(posted) && feedback == "No local progress to sync." && !feedbackIsError
      ensures body.Some? ==> body.value == SyncBody(stored) && posted == old(posted) + [body.value]
      ensures body.Some? && answer.Failed? ==> feedback == "Network error while syncing." && feedbackIsError
      ensures body.Some? && answer.Fetched? && answer.ok ==> feedback == "Progress synced to server." && !feedbackIsError
      ensures body.Some? && answer.Fetched? && !answer.ok ==>
        feedbackIsError
        && feedback == if Present(Get(answer.data, "error")) then toText(Get(answer.data, "error").value) else "Sync failed"
    {
      if stored == [] {
        feedback := "No local progress to sync.";
        feedbackIsError := false;
        return None;
      }
      body := Some(SyncBody(stored));
      posted := posted + [body.value];
      match answer {
        case Failed =>
          feedback := "Network error while syncing.";
          feedbackIsError := true;
        case Fetched(ok, json) =>
          if ok {
            feedback := "Progress synced to server.";
            feedbackIsError := false;
          } else {
            feedback := if Present(Get(json, "error")) then toText(Get(json, "error").value) else "Sync failed";
            feedbackIsError := true;
          }
      }
    }

    /** `progress.js` on page load: the merged log is written back in one
        step; nothing else on the page changes. */
    method MergeServerProgress(f: Fetched, nowText: string, parseDate: Json -> Json)
      modifies this
      ensures stored == MergedLog(old(stored), f, nowText, parseDate)
      ensures posted == old(posted) && summary == old(summary) && feedback == old(feedback)
      ensures feedbackIsError == old(feedbackIsError)
    {
      stored := MergedLog(stored, f, nowText, parseDate);
    }
  }

  /** Each accepted answer adds exactly one attempt to the summary, and a
      correct one also to the correct count. */
  lemma AttemptCounts(log: seq<Json>, answer: string, parsed: Option<int>, now: int)
    ensures |log + [Attempt(answer, parsed, now)]| == |log| + 1
    ensures CorrectCount(log + [Attempt(answer, parsed, now)])
      == CorrectCount(log) + (if parsed == Some(Expected) then 1 else 0)
  {
    assert (log + [Attempt(answer, parsed, now)])[..|log|] == log;
  }
}
