/** The student dashboard: the submission form with its checks before
    upload, the submissions list with its type badges, the attempt totals,
    and the results list (every practice item of every progress entry,
    newest first, at most twenty). */
module Dashboard {
  import opened Common
  import opened Json
  import opened Text
  import opened Uploads

  /** What a `fetch` of a JSON endpoint gives: a failure before a body was
      read (no answer, or a body that is not JSON), or a status and the
      parsed body. */
  datatype Fetched = Failed | Fetched(ok: bool, data: Json)

  // ---------------------------------------------------------------- the items of an entry

  /** `Array.isArray(entry.items) ? entry.items : []`. */
  function EntryItems(entry: Json): (items: seq<Json>)
    ensures IsArray(Get(entry, "items")) ==> items == Get(entry, "items").value.items
    ensures !IsArray(Get(entry, "items")) ==> items == []
  {
    match Get(entry, "items")
    case Some(Arr(items)) => items
    case _ => []
  }

  /** `item.correct` is truthy. */
  predicate IsCorrect(item: Json) {
    Present(Get(item, "correct"))
  }

  // ---------------------------------------------------------------- totals

  /** `items.reduce((acc, entry) => acc + (Array.isArray(entry.items) ?
      entry.items.length : 0), 0)`. */
  function TotalAttempts(entries: seq<Json>): nat
    decreases |entries|
  {
    if entries == [] then 0
    else TotalAttempts(entries[..|entries| - 1]) + |EntryItems(entries[|entries| - 1])|
  }

  /** The same reduction counting only the items whose `correct` is truthy;
      it never exceeds the number of attempts. */
  function CorrectAnswers(entries: seq<Json>): (n: nat)
    ensures n <= TotalAttempts(entries)
    decreases |entries|
  {
    if entries == [] then 0
    else
      var items := EntryItems(entries[|entries| - 1]);
      CountIsFilterLength(items, IsCorrect);
      CorrectAnswers(entries[..|entries| - 1]) + Count(items, IsCorrect)
  }

  /** Reading `entry.items` of a `null` entry throws, and so does reading
      `i.correct` of a `null` item. */
  predicate NoNullEntry(entries: seq<Json>) {
    forall i :: 0 <= i < |entries| ==> !entries[i].Null?
  }

  predicate NoNullItem(entries: seq<Json>) {
    forall i, j :: 0 <= i < |entries| && 0 <= j < |EntryItems(entries[i])| ==> !EntryItems(entries[i])[j].Null?
  }

  /** `(data.submissions || []).length`, read without looking at the status;
      `None` where that length is not a number (a value other than an array
      or a string). A failed fetch counts 0. */
  function SubmissionsCount(f: Fetched): (count: Option<nat>)
    ensures f.Failed? || f.data.Null? ==> count == Some(0)
    ensures f.Fetched? && !Present(Get(f.data, "submissions")) ==> count == Some(0)
    ensures f.Fetched? && IsArray(Get(f.data, "submissions")) ==> count == Some(|Get(f.data, "submissions").value.items|)
  {
    if f.Failed? || f.data.Null? then Some(0)
    else
      var subs := Or(Get(f.data, "submissions"), Arr([]));
      if subs.Arr? then Some(|subs.items|)
      else if subs.Str? then Some(|subs.s|)
      else None
  }

  datatype Totals = Totals(submissions: Option<nat>, tasks: nat, correct: nat)

  /** `loadProgress`: the three counters, or `None` when nothing is shown
      (a failed fetch, a status that is not ok, no `progress`, a
      `progress` that is not an array, or a `null` entry or item that
      makes a reduction throw). */
  function ProgressTotals(progress: Fetched, submissions: Fetched): (t: Option<Totals>)
    ensures t.Some? <==>
      progress.Fetched? && progress.ok && !progress.data.Null?
      && Present(Get(progress.data, "progress")) && IsArray(Get(progress.data, "progress"))
      && NoNullEntry(Get(progress.data, "progress").value.items)
      && NoNullItem(Get(progress.data, "progress").value.items)
    ensures t.Some? ==> t.value.correct <= t.value.tasks
    ensures t.Some? ==>
      var entries := Get(progress.data, "progress").value.items;
      t.value.tasks == TotalAttempts(entries) && t.value.correct == CorrectAnswers(entries)
      && t.value.submissions == SubmissionsCount(submissions)
  {
    if progress.Failed? || !progress.ok || progress.data.Null? then None
    else
      var p := Get(progress.data, "progress");
      if !Present(p) || !p.value.Arr? then None
      else
        var entries := p.value.items;
        if !NoNullEntry(entries) || !NoNullItem(entries) then None
        else Some(Totals(SubmissionsCount(submissions), TotalAttempts(entries), CorrectAnswers(entries)))
  }

  // ---------------------------------------------------------------- flattening

  /** `{ ...item, timestamp: entry.at }`. An `at` the entry lacks leaves no
      timestamp on the result. */
  function Tagged(item: Json, entry: Json): (task: Json)
    ensures task.Obj?
    ensures Get(task, "timestamp") == Get(entry, "at")
  {
    match Get(entry, "at")
    case Some(at) => Obj(Spread(item)["timestamp" := at])
    case None => Obj(Spread(item) - {"timestamp"})
  }

  /** Every other property is the item's spread one; a property whose name
      does not start with a digit is the item's own. */
  lemma TaggedFields(item: Json, entry: Json)
    ensures forall k :: k != "timestamp" ==>
      Get(Tagged(item, entry), k) == if k in Spread(item) then Some(Spread(item)[k]) else None
    ensures forall k :: k != "timestamp" && (k == "" || !IsDigit(k[0])) ==>
      Get(Tagged(item, entry), k) == Get(item, k)
  {
  }

  /** The tasks of one entry, in item order. */
  function TagAll(items: seq<Json>, entry: Json): (tasks: seq<Json>)
    ensures |tasks| == |items|
    ensures forall j :: 0 <= j < |items| ==> tasks[j] == Tagged(items[j], entry)
  {
    seq(|items|, (j: int) requires 0 <= j < |items| => Tagged(items[j], entry))
  }

  /** Every item of every entry, entry by entry and item by item. */
  function Flattened(entries: seq<Json>): seq<Json>
    decreases |entries|
  {
    if entries == [] then []
    else
      var last := entries[|entries| - 1];
      Flattened(entries[..|entries| - 1]) + TagAll(EntryItems(last), last)
  }

  /** The results list holds one task per attempt the totals count. */
  lemma {:induction false} FlattenedLength(entries: seq<Json>)
    ensures |Flattened(entries)| == TotalAttempts(entries)
    decreases |entries|
  {
    if entries != [] {
      FlattenedLength(entries[..|entries| - 1]);
    }
  }

  /** Item `j` of entry `i` is the result right after all the items of the
      entries before it, tagged with entry `i`'s time. */
  lemma {:induction false} FlattenedAt(entries: seq<Json>, i: nat, j: nat)
    requires i < |entries| && j < |EntryItems(entries[i])|
    ensures TotalAttempts(entries[..i]) + j < |Flattened(entries)|
    ensures Flattened(entries)[TotalAttempts(entries[..i]) + j] == Tagged(EntryItems(entries[i])[j], entries[i])
    decreases |entries|
  {
    var init, last := entries[..|entries| - 1], entries[|entries| - 1];
    var tail := TagAll(EntryItems(last), last);
    assert Flattened(entries) == Flattened(init) + tail;
    FlattenedLength(init);
    if i == |init| {
      assert entries[..i] == init;
      assert Flattened(entries)[|Flattened(init)| + j] == tail[j];
    } else {
      assert entries[..i] == init[..i];
      assert entries[i] == init[i];
      FlattenedAt(init, i, j);
      assert Flattened(entries)[TotalAttempts(init[..i]) + j] == Flattened(init)[TotalAttempts(init[..i]) + j];
    }
  }

  lemma {:induction false} CountTagAll(items: seq<Json>, entry: Json)
    ensures Count(TagAll(items, entry), IsCorrect) == Count(items, IsCorrect)
    decreases |items|
  {
    if items != [] {
      var init := items[..|items| - 1];
      assert TagAll(items, entry)[..|items| - 1] == TagAll(init, entry);
      CountTagAll(init, entry);
    }
  }

  /** The results list and the counters agree: the correct tasks listed are
      the correct answers counted. */
  lemma {:induction false} FlattenedCorrect(entries: seq<Json>)
    ensures Count(Flattened(entries), IsCorrect) == CorrectAnswers(entries)
    decreases |entries|
  {
    if entries != [] {
      var init, last := entries[..|entries| - 1], entries[|entries| - 1];
      FlattenedCorrect(init);
      CountAppend(Flattened(init), TagAll(EntryItems(last), last), IsCorrect);
      CountTagAll(EntryItems(last), last);
    }
  }

  // ---------------------------------------------------------------- newest first

  /** `new Date(task.timestamp || 0)` as a number; `dateOf` is the date
      parse. */
  function When(task: Json, dateOf: Json -> int): int {
    dateOf(Or(Get(task, "timestamp"), Num(0)))
  }

  /** The time of each task, the key the list is sorted by. */
  function TimeKey(dateOf: Json -> int): Json -> int {
    (task: Json) => When(task, dateOf)
  }

  /** Tasks ordered by `key`, largest (newest) first. */
  predicate NewestFirst(s: seq<Json>, key: Json -> int) {
    forall i, j :: 0 <= i < j < |s| ==> key(s[i]) >= key(s[j])
  }

  lemma NewestFirstTail(s: seq<Json>, key: Json -> int)
    requires s != [] && NewestFirst(s, key)
    ensures NewestFirst(s[1..], key)
    ensures forall i :: 0 <= i < |s| ==> key(s[i]) <= key(s[0])
  {
    forall i, j | 0 <= i < j < |s| - 1 ensures key(s[1..][i]) >= key(s[1..][j]) {
      assert s[1..][i] == s[i + 1] && s[1..][j] == s[j + 1];
    }
  }

  /** `x` placed after every task at least as new as it. */
  function Insert(sorted: seq<Json>, x: Json, key: Json -> int): (r: seq<Json>)
    ensures |r| == |sorted| + 1
    decreases |sorted|
  {
    if sorted == [] then [x]
    else if key(x) > key(sorted[0]) then [x] + sorted
    else [sorted[0]] + Insert(sorted[1..], x, key)
  }

  lemma {:induction false} InsertMultiset(sorted: seq<Json>, x: Json, key: Json -> int)
    ensures multiset(Insert(sorted, x, key)) == multiset(sorted) + multiset{x}
    decreases |sorted|
  {
    if sorted != [] && key(x) <= key(sorted[0]) {
      InsertMultiset(sorted[1..], x, key);
      assert sorted == [sorted[0]] + sorted[1..];
    }
  }

  /** Nothing inserted is newer than a bound every task respects. */
  lemma {:induction false} InsertBound(sorted: seq<Json>, x: Json, key: Json -> int, bound: int)
    requires forall i :: 0 <= i < |sorted| ==> key(sorted[i]) <= bound
    requires key(x) <= bound
    ensures forall i :: 0 <= i < |sorted| + 1 ==> key(Insert(sorted, x, key)[i]) <= bound
    decreases |sorted|
  {
    if sorted != [] && key(x) <= key(sorted[0]) {
      var rest := sorted[1..];
      assert forall i :: 0 <= i < |rest| ==> rest[i] == sorted[i + 1];
      InsertBound(rest, x, key, bound);
      var r := Insert(sorted, x, key);
      assert forall i :: 1 <= i < |r| ==> r[i] == Insert(rest, x, key)[i - 1];
    }
  }

  lemma {:induction false} InsertOrdered(sorted: seq<Json>, x: Json, key: Json -> int)
    requires NewestFirst(sorted, key)
    ensures NewestFirst(Insert(sorted, x, key), key)
    decreases |sorted|
  {
    if sorted != [] {
      var top := key(sorted[0]);
      NewestFirstTail(sorted, key);
      if key(x) <= top {
        var rest := Insert(sorted[1..], x, key);
        InsertOrdered(sorted[1..], x, key);
        InsertBound(sorted[1..], x, key, top);
        var r := [sorted[0]] + rest;
        assert forall i :: 1 <= i < |r| ==> r[i] == rest[i - 1];
      } else {
        var r := [x] + sorted;
        assert forall i :: 1 <= i < |r| ==> r[i] == sorted[i - 1];
      }
    }
  }

  /** `allTasks.sort(...)` by time, newest first: a stable sort, here an
      insertion sort. */
  function SortNewestFirst(s: seq<Json>, key: Json -> int): (r: seq<Json>)
    ensures multiset(r) == multiset(s)
    ensures NewestFirst(r, key)
    decreases |s|
  {
    if s == [] then []
    else
      var init, x := s[..|s| - 1], s[|s| - 1];
      var sorted := SortNewestFirst(init, key);
      InsertOrdered(sorted, x, key);
      InsertMultiset(sorted, x, key);
      LastSplitMultiset(s);
      Insert(sorted, x, key)
  }

  lemma LastSplitMultiset(s: seq<Json>)
    requires s != []
    ensures multiset(s) == multiset(s[..|s| - 1]) + multiset{s[|s| - 1]}
  {
    assert s == s[..|s| - 1] + [s[|s| - 1]];
  }

  /** The tasks of time `t`. */
  function AtTime(key: Json -> int, t: int): Json -> bool {
    (y: Json) => key(y) == t
  }

  /** Placed in front, `x` is newer than every task of time `t` there could
      be, so there is none. */
  lemma InsertStableFront(sorted: seq<Json>, x: Json, key: Json -> int, t: int)
    requires sorted != [] && NewestFirst(sorted, key)
    requires key(x) > key(sorted[0])
    ensures Filter([x] + sorted, AtTime(key, t))
      == Filter(sorted, AtTime(key, t)) + (if key(x) == t then [x] else [])
  {
    var p := AtTime(key, t);
    FilterCons(x, sorted, p);
    if p(x) {
      NewestFirstTail(sorted, key);
      FilterNone(sorted, p);
    }
  }

  /** Placed behind the first task, `x` leaves that task first among those
      of its time. */
  lemma InsertStableBehind(sorted: seq<Json>, x: Json, key: Json -> int, t: int)
    requires sorted != [] && key(x) <= key(sorted[0])
    requires Filter(Insert(sorted[1..], x, key), AtTime(key, t))
      == Filter(sorted[1..], AtTime(key, t)) + (if key(x) == t then [x] else [])
    ensures Filter(Insert(sorted, x, key), AtTime(key, t))
      == Filter(sorted, AtTime(key, t)) + (if key(x) == t then [x] else [])
  {
    var p := AtTime(key, t);
    var h, tail := sorted[0], sorted[1..];
    var moved := Insert(tail, x, key);
    var kept := if p(h) then [h] else [];
    var added := if key(x) == t then [x] else [];
    calc {
      Filter(Insert(sorted, x, key), p);
      Filter([h] + moved, p);
      { FilterCons(h, moved, p); }
      kept + Filter(moved, p);
      kept + (Filter(tail, p) + added);
      (kept + Filter(tail, p)) + added;
      { FilterCons(h, tail, p); }
      Filter([h] + tail, p) + added;
      { assert [h] + tail == sorted; }
      Filter(sorted, p) + added;
    }
  }

  lemma {:induction false} InsertStable(sorted: seq<Json>, x: Json, key: Json -> int, t: int)
    requires NewestFirst(sorted, key)
    ensures Filter(Insert(sorted, x, key), AtTime(key, t))
      == Filter(sorted, AtTime(key, t)) + (if key(x) == t then [x] else [])
    decreases |sorted|
  {
    if sorted == [] {
      FilterSnoc([], x, AtTime(key, t));
      assert [] + [x] == [x];
    } else if key(x) > key(sorted[0]) {
      InsertStableFront(sorted, x, key, t);
    } else {
      NewestFirstTail(sorted, key);
      InsertStable(sorted[1..], x, key, t);
      InsertStableBehind(sorted, x, key, t);
    }
  }

  /** The sort is stable: tasks with the same time keep their flattened
      order. */
  lemma {:induction false} SortStable(s: seq<Json>, key: Json -> int, t: int)
    ensures Filter(SortNewestFirst(s, key), AtTime(key, t)) == Filter(s, AtTime(key, t))
    decreases |s|
  {
    if s != [] {
      var init, x := s[..|s| - 1], s[|s| - 1];
      var sorted := SortNewestFirst(init, key);
      assert SortNewestFirst(s, key) == Insert(sorted, x, key);
      SortStable(init, key, t);
      InsertStable(sorted, x, key, t);
      assert s == init + [x];
      FilterSnoc(init, x, AtTime(key, t));
    }
  }

  // ---------------------------------------------------------------- the results list

  const MaxResults: nat := 20

  datatype ResultsView = ResultsUnavailable | ResultsError | NoResults | Results(tasks: seq<Json>)

  function ResultsMessage(v: ResultsView): string {
    match v
    case ResultsUnavailable => "Unable to load results."
    case ResultsError => "Error loading results."
    case NoResults => "No task results yet. Complete some practice tasks to see results here."
    case Results(_) => ""
  }

  /** What `loadResults` shows for a fetch of the progress entries. */
  function ResultsFor(f: Fetched, dateOf: Json -> int): ResultsView {
    if f.Failed? then ResultsError
    else if !f.ok then ResultsUnavailable
    else if f.data.Null? then ResultsError
    else match Or(Get(f.data, "progress"), Arr([]))
      case Arr(entries) =>
        if !NoNullEntry(entries) then ResultsError
        else
          var all := Flattened(entries);
          if all == [] then NoResults
          else Results(Take(SortNewestFirst(all, TimeKey(dateOf)), MaxResults))
      case _ => ResultsError
  }

  /** Tagging one more item extends the tagged list by that item. */
  lemma TagAllSnoc(items: seq<Json>, j: nat, entry: Json)
    requires j < |items|
    ensures TagAll(items[..j + 1], entry) == TagAll(items[..j], entry) + [Tagged(items[j], entry)]
  {
    var a := TagAll(items[..j + 1], entry);
    var b := TagAll(items[..j], entry) + [Tagged(items[j], entry)];
    assert |a| == |b|;
    forall k | 0 <= k < |a| ensures a[k] == b[k] {
      assert items[..j + 1][k] == (if k < j then items[..j][k] else items[j]);
    }
  }

  /** One more non-null entry extends the flattened list by its tasks. */
  lemma FlattenedStep(entries: seq<Json>, i: nat)
    requires i < |entries| && NoNullEntry(entries[..i]) && !entries[i].Null?
    ensures NoNullEntry(entries[..i + 1])
    ensures Flattened(entries[..i + 1]) == Flattened(entries[..i]) + TagAll(EntryItems(entries[i]), entries[i])
  {
    assert entries[..i + 1][..i] == entries[..i];
  }

  /** The two `forEach` loops of `loadResults`: each item of each entry is
      pushed onto the list of results, tagged with its entry's time; a `null`
      entry throws. */
  method FlattenTasks(entries: seq<Json>) returns (all: Option<seq<Json>>)
    ensures all.None? <==> !NoNullEntry(entries)
    ensures all.Some? ==> all.value == Flattened(entries)
  {
    var tasks: seq<Json> := [];
    var i := 0;
    while i < |entries|
      invariant 0 <= i <= |entries|
      invariant NoNullEntry(entries[..i])
      invariant tasks == Flattened(entries[..i])
    {
      var entry := entries[i];
      if entry.Null? {
        return None;
      }
      var items := EntryItems(entry);
      var j := 0;
      while j < |items|
        invariant 0 <= j <= |items|
        invariant tasks == Flattened(entries[..i]) + TagAll(items[..j], entry)
      {
        TagAllSnoc(items, j, entry);
        tasks := tasks + [Tagged(items[j], entry)];
        j := j + 1;
      }
      assert items[..j] == items;
      FlattenedStep(entries, i);
      i := i + 1;
    }
    assert entries[..i] == entries;
    all := Some(tasks);
  }

  /** `loadResults`: the results are flattened, then sorted and cut to the
      first twenty. */
  method LoadResults(f: Fetched, dateOf: Json -> int) returns (view: ResultsView)
    ensures view == ResultsFor(f, dateOf)
  {
    if f.Failed? {
      return ResultsError;
    }
    if !f.ok {
      return ResultsUnavailable;
    }
    if f.data.Null? {
      return ResultsError;
    }
    var progress := Or(Get(f.data, "progress"), Arr([]));
    if !progress.Arr? {
      return ResultsError;
    }
    var all := FlattenTasks(progress.items);
    if all.None? {
      return ResultsError;
    }
    if all.value == [] {
      return NoResults;
    }
    var sorted := SortNewestFirst(all.value, TimeKey(dateOf));
    view := Results(Take(sorted, MaxResults));
  }

  /** Of a non-empty task list, the first twenty after sorting: at most
      twenty, newest first, all from the list, and none left out is newer
      than one shown. */
  lemma NewestShown(all: seq<Json>, key: Json -> int)
    requires all != []
    ensures var sorted := SortNewestFirst(all, key);
      var shown := Take(sorted, MaxResults);
      0 < |shown| <= MaxResults && NewestFirst(shown, key)
      && (forall i :: 0 <= i < |shown| ==> shown[i] in all)
      && (forall i, j :: 0 <= i < |shown| <= j < |sorted| ==> key(shown[i]) >= key(sorted[j]))
  {
    var sorted := SortNewestFirst(all, key);
    var shown := Take(sorted, MaxResults);
    assert |sorted| == |all| by {
      assert |multiset(sorted)| == |multiset(all)|;
    }
    forall i | 0 <= i < |shown| ensures shown[i] in all {
      assert shown[i] == sorted[i];
      assert sorted[i] in multiset(sorted);
    }
    forall i, j | 0 <= i < |shown| <= j < |sorted| ensures key(shown[i]) >= key(sorted[j]) {
      assert shown[i] == sorted[i];
    }
  }

  /** For a fetched list of progress entries, the empty message appears
      exactly when there is no task at all, and otherwise the list shown is
      the newest twenty of the flattened tasks: at most twenty, newest
      first, each one a task of some entry. */
  lemma ResultsShape(f: Fetched, dateOf: Json -> int)
    requires f.Fetched? && f.ok && !f.data.Null?
    requires IsArray(Get(f.data, "progress")) && NoNullEntry(Get(f.data, "progress").value.items)
    ensures ResultsFor(f, dateOf) == NoResults <==> Flattened(Get(f.data, "progress").value.items) == []
    ensures ResultsFor(f, dateOf).Results? ==>
      var all := Flattened(Get(f.data, "progress").value.items);
      var shown := ResultsFor(f, dateOf).tasks;
      shown == Take(SortNewestFirst(all, TimeKey(dateOf)), MaxResults)
      && 0 < |shown| <= MaxResults && NewestFirst(shown, TimeKey(dateOf))
      && (forall i :: 0 <= i < |shown| ==> shown[i] in all)
  {
    var entries := Get(f.data, "progress").value.items;
    assert Or(Get(f.data, "progress"), Arr([])) == Arr(entries);
    var all := Flattened(entries);
    if all == [] {
      assert ResultsFor(f, dateOf) == NoResults;
    } else {
      assert ResultsFor(f, dateOf) == Results(Take(SortNewestFirst(all, TimeKey(dateOf)), MaxResults));
      NewestShown(all, TimeKey(dateOf));
    }
  }

  // ---------------------------------------------------------------- the submissions list

  /** `sub.type || 'assignment'`. */
  function Kind(sub: Json): Json {
    Or(Get(sub, "type"), Str("assignment"))
  }

  /** `s.charAt(0).toUpperCase() + s.slice(1)`. */
  function Capitalize(s: string): (r: string)
    ensures |r| == |s|
  {
    if s == [] then [] else [ToUpperChar(s[0])] + s[1..]
  }

  /** Capitalising changes only the case of the first character. */
  lemma CapitalizeCase(s: string)
    requires s != []
    ensures !IsLower(Capitalize(s)[0]) && Capitalize(s)[1..] == s[1..]
    ensures ToLower(Capitalize(s)) == ToLower(s)
  {
    var r := Capitalize(s);
    assert ToLowerChar(ToUpperChar(s[0])) == ToLowerChar(s[0]);
    forall i | 0 <= i < |s| ensures ToLower(r)[i] == ToLower(s)[i] {
      if i > 0 {
        assert r[i] == s[i];
      }
    }
  }

  lemma DefaultBadge()
    ensures Capitalize("assignment") == "Assignment"
  {
    assert ToUpperChar('a') == 'A';
    assert "assignment"[1..] == "ssignment";
  }

  /** The badge of a submission: its type, `assignment` when it has none,
      with the first character upper-cased. `None` where the value has no
      `charAt` (a type that is a number, an array or an object), which
      makes the whole list fail. */
  function TypeLabel(sub: Json): (badge: Option<string>)
    ensures badge.Some? <==> Kind(sub).Str?
    ensures !Present(Get(sub, "type")) ==> badge == Some("Assignment")
    ensures badge.Some? ==>
      var kind := Kind(sub).s;
      |badge.value| == |kind| > 0
      && !IsLower(badge.value[0]) && badge.value[1..] == kind[1..]
      && ToLower(badge.value) == ToLower(kind)
  {
    match Kind(sub)
    case Str(s) =>
      CapitalizeCase(s);
      DefaultBadge();
      Some(Capitalize(s))
    case _ => None
  }

  datatype SubmissionsView = SubmissionsUnavailable | SubmissionsError | NoSubmissions | Listed(labels: seq<string>)

  function SubmissionsMessage(v: SubmissionsView): string {
    match v
    case SubmissionsUnavailable => "Unable to load submissions."
    case SubmissionsError => "Error loading submissions."
    case NoSubmissions => "No submissions yet. Submit your first assignment above!"
    case Listed(_) => ""
  }

  /** What `loadSubmissions` shows: the empty message for an empty list,
      and otherwise one badge per submission in the order received. */
  function SubmissionsFor(f: Fetched): (v: SubmissionsView)
    ensures v == NoSubmissions <==>
      f.Fetched? && f.ok && !f.data.Null?
      && (!Present(Get(f.data, "submissions")) || Get(f.data, "submissions") == Some(Arr([])))
    ensures v.Listed? ==>
      f.Fetched? && IsArray(Get(f.data, "submissions"))
      && var subs := Get(f.data, "submissions").value.items;
      |v.labels| == |subs| > 0 && forall i :: 0 <= i < |subs| ==> TypeLabel(subs[i]) == Some(v.labels[i])
  {
    if f.Failed? then SubmissionsError
    else if !f.ok then SubmissionsUnavailable
    else if f.data.Null? then SubmissionsError
    else match Or(Get(f.data, "submissions"), Arr([]))
      case Arr(subs) =>
        if subs == [] then NoSubmissions
        else if exists i :: 0 <= i < |subs| && (subs[i].Null? || TypeLabel(subs[i]).None?) then SubmissionsError
        else Listed(seq(|subs|, (i: int) requires 0 <= i < |subs| => TypeLabel(subs[i]).value))
      case _ => SubmissionsError
  }

  // ---------------------------------------------------------------- the submission form

  /** The upload limit the form checks, the same the server enforces. */
  const FormUploadLimit: nat := 10 * 1024 * 1024

  /** A file the form lets through is never refused by the server for its
      size, and one it refuses would have been refused there too. */
  lemma FormLimitIsServerLimit(u: Upload)
    ensures u.size <= FormUploadLimit ==> UploadCheck(u) != Some(TooLarge)
    ensures u.size > FormUploadLimit ==> UploadCheck(u).Some?
  {
  }

  class SubmissionPanel {
    /** The file chosen in the form, if any. */
    var file: Option<Upload>
    var errorText: string
    var errorHidden: bool
    var successText: string
    var successHidden: bool
    var buttonDisabled: bool
    var buttonText: string
    /** Every file the panel has sent. */
    var uploads: seq<Upload>

    constructor ()
      ensures file == None && uploads == []
      ensures errorHidden && successHidden && !buttonDisabled && buttonText == "Submit Assignment"
    {
      file := None;
      errorText := "";
      errorHidden := true;
      successText := "";
      successHidden := true;
      buttonDisabled := false;
      buttonText := "Submit Assignment";
      uploads := [];
    }

    method Choose(f: Upload)
      modifies this
      ensures file == Some(f)
      ensures uploads == old(uploads) && errorHidden == old(errorHidden) && successHidden == old(successHidden)
      ensures errorText == old(errorText) && successText == old(successText)
      ensures buttonDisabled == old(buttonDisabled) && buttonText == old(buttonText)
    {
      file := Some(f);
    }

    /** The submit handler. Without a file, or with one over the limit, the
        error is shown and nothing is sent. Otherwise the file is sent once
        and `answer` is what comes back; a failed fetch, and an error reply
        whose body is `null`, land in the catch block. Whatever comes back,
        the button is enabled again afterwards. */
    method Submit(answer: Fetched, toText: Json -> string) returns (sentFile: Option<Upload>)
      modifies this
      ensures sentFile.Some? <==> old(file).Some? && old(file).value.size <= FormUploadLimit
      ensures sentFile.None? ==> uploads == old(uploads) && !errorHidden && successHidden
      ensures sentFile.None? ==>
        file == old(file) && successText == old(successText)
        && buttonDisabled == old(buttonDisabled) && buttonText == old(buttonText)
      ensures old(file).None? ==> errorText == "Please select a file to upload."
      ensures old(file).Some? && old(file).value.size > FormUploadLimit ==> errorText == "File size exceeds 10MB limit."
      ensures sentFile.Some? ==>
        sentFile == old(file) && uploads == old(uploads) + [sentFile.value]
        && !buttonDisabled && buttonText == "Submit Assignment"
      ensures sentFile.Some? && (answer.Failed? || (!answer.ok && answer.data.Null?)) ==>
        errorText == "Network error. Please try again later."
        && !errorHidden && successHidden && file == old(file) && successText == old(successText)
      ensures sentFile.Some? && answer.Fetched? && !answer.ok && !answer.data.Null? ==>
        errorText == (if Present(Get(answer.data, "error")) then toText(Get(answer.data, "error").value)
                      else "Submission failed. Please try again.")
        && !errorHidden && successHidden && file == old(file) && successText == old(successText)
      ensures sentFile.Some? && answer.Fetched? && answer.ok ==>
        successText == "Assignment submitted successfully!" && !successHidden && errorHidden && file == None
        && errorText == old(errorText)
    {
      errorHidden := true;
      successHidden := true;
      if file.None? {
        errorText := "Please select a file to upload.";
        errorHidden := false;
        return None;
      }
      if file.value.size > FormUploadLimit {
        errorText := "File size exceeds 10MB limit.";
        errorHidden := false;
        return None;
      }
      buttonDisabled := true;
      buttonText := "Uploading...";
      sentFile := file;
      uploads := uploads + [file.value];
      match answer {
        case Failed =>
          errorText := "Network error. Please try again later.";
          errorHidden := false;
        case Fetched(ok, body) =>
          if !ok && body.Null? {
            // reading `result.error` of a `null` body throws into the catch
            errorText := "Network error. Please try again later.";
            errorHidden := false;
          } else if !ok {
            errorText := if Present(Get(body, "error")) then toText(Get(body, "error").value)
                         else "Submission failed. Please try again.";
            errorHidden := false;
          } else {
            successText := "Assignment submitted successfully!";
            successHidden := false;
            file := None;
          }
      }
      buttonDisabled := false;
      buttonText := "Submit Assignment";
    }
  }
}
