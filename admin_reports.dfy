/** The admin progress pages: progress entries grouped by user, the item
    count shown per entry, and the CSV export with its quoted fields. */
module AdminReports {
  import opened Common
  import opened Json
  import opened Text
  import opened Database

  // ---------------------------------------------------------------- grouping

  /** The entries of one user, in the order given. */
  function Owned(entries: seq<ProgressRow>, userId: nat): seq<ProgressRow> {
    Filter(entries, (e: ProgressRow) => e.userId == userId)
  }

  lemma OwnedSnoc(entries: seq<ProgressRow>, x: ProgressRow, userId: nat)
    ensures Owned(entries + [x], userId) == Owned(entries, userId) + (if x.userId == userId then [x] else [])
  {
    FilterSnoc(entries, x, (e: ProgressRow) => e.userId == userId);
  }

  lemma OwnedEmpty(entries: seq<ProgressRow>, userId: nat)
    requires forall j :: 0 <= j < |entries| ==> entries[j].userId != userId
    ensures Owned(entries, userId) == []
  {
    FilterNone(entries, (e: ProgressRow) => e.userId == userId);
  }

  /** `groups` has a key exactly for the users that own an entry, and each
      key maps to that user's entries in their original order. */
  ghost predicate GroupedAs(groups: map<nat, seq<ProgressRow>>, entries: seq<ProgressRow>) {
    (forall k :: k in groups <==> exists j :: 0 <= j < |entries| && entries[j].userId == k)
    && (forall k :: k in groups ==> groups[k] == Owned(entries, k))
  }

  /** One round of the loop: `e` appended to its user's group, which is
      created empty first when missing. */
  lemma GroupStep(before: map<nat, seq<ProgressRow>>, after: map<nat, seq<ProgressRow>>,
                  entries: seq<ProgressRow>, i: nat)
    requires i < |entries| && GroupedAs(before, entries[..i])
    requires after == before[entries[i].userId :=
      (if entries[i].userId in before then before[entries[i].userId] else []) + [entries[i]]]
    ensures GroupedAs(after, entries[..i + 1])
  {
    var seen, e := entries[..i], entries[i];
    assert entries[..i + 1] == seen + [e];
    var all := seen + [e];
    if e.userId !in before {
      OwnedEmpty(seen, e.userId);
    }
    forall k | k in after ensures after[k] == Owned(all, k) {
      OwnedSnoc(seen, e, k);
    }
    forall k ensures k in after <==> exists j :: 0 <= j < |all| && all[j].userId == k {
      if k in before {
        var j :| 0 <= j < |seen| && seen[j].userId == k;
        assert all[j] == seen[j];
      }
      if exists j :: 0 <= j < |all| && all[j].userId == k {
        var j :| 0 <= j < |all| && all[j].userId == k;
        if j < |seen| {
          assert seen[j] == all[j];
        }
      }
    }
  }

  /** The `progressByUser` loop of the admin progress page. */
  method GroupByUser(entries: seq<ProgressRow>) returns (groups: map<nat, seq<ProgressRow>>)
    ensures GroupedAs(groups, entries)
  {
    groups := map[];
    var i := 0;
    while i < |entries|
      invariant 0 <= i <= |entries|
      invariant GroupedAs(groups, entries[..i])
    {
      var e := entries[i];
      ghost var before := groups;
      if e.userId !in groups {
        groups := groups[e.userId := []];
      }
      groups := groups[e.userId := groups[e.userId] + [e]];
      GroupStep(before, groups, entries, i);
      i := i + 1;
    }
    assert entries[..|entries|] == entries;
  }

  /** Every entry lands in the group of its own user and in no other. */
  lemma GroupsPartition(groups: map<nat, seq<ProgressRow>>, entries: seq<ProgressRow>)
    requires GroupedAs(groups, entries)
    ensures forall j :: 0 <= j < |entries| ==> entries[j].userId in groups && entries[j] in groups[entries[j].userId]
    ensures forall k, i :: k in groups && 0 <= i < |groups[k]| ==> groups[k][i].userId == k && groups[k][i] in entries
  {
    forall j | 0 <= j < |entries| ensures entries[j].userId in groups && entries[j] in groups[entries[j].userId] {
      var k := entries[j].userId;
      assert k in groups;
      assert entries[j] in Owned(entries, k);
    }
  }

  // ---------------------------------------------------------------- item counts

  /** `typeof entry.data === 'string' ? JSON.parse(entry.data) : entry.data`
      and the read of `data.items` after it, on a stored value: `None` where
      either throws, for a stored string that is not JSON text and for a
      `null` value, so that the page answers 500. `parse` is `JSON.parse`. */
  function ReadData(stored: Json, parse: string -> Option<Json>): (d: Option<Json>)
    ensures d.Some? ==> !d.value.Null?
    ensures d.None? <==> stored.Null? || (stored.Str? && (parse(stored.s).None? || parse(stored.s).value.Null?))
    ensures d.Some? && !stored.Str? ==> d.value == stored
    ensures d.Some? && stored.Str? ==> parse(stored.s) == d
  {
    var data := if stored.Str? then parse(stored.s) else Some(stored);
    if data.Some? && !data.value.Null? then data else None
  }

  /** `Array.isArray(data.items) ? data.items.length : 0`, as the HTML page
      counts; `None` where reading the data throws. */
  function ItemsCount(stored: Json, parse: string -> Option<Json>): (n: Option<nat>)
    ensures n.None? <==> ReadData(stored, parse).None?
    ensures n.Some? && IsArray(Get(ReadData(stored, parse).value, "items")) ==>
      n.value == |Get(ReadData(stored, parse).value, "items").value.items|
    ensures n.Some? && !IsArray(Get(ReadData(stored, parse).value, "items")) ==> n.value == 0
  {
    match ReadData(stored, parse)
    case None => None
    case Some(data) =>
      match Get(data, "items")
      case Some(Arr(items)) => Some(|items|)
      case _ => Some(0)
  }

  /** `data.items || []`, the items the CSV export writes out. */
  function CsvItems(data: Json): Json {
    Or(Get(data, "items"), Arr([]))
  }

  /** The CSV's `Array.isArray(items) ? items.length : 0`. */
  function CsvItemsCount(data: Json): nat {
    if CsvItems(data).Arr? then |CsvItems(data).items| else 0
  }

  /** The two pages count the same items, and fail on the same entries. */
  lemma ItemsCountsAgree(stored: Json, parse: string -> Option<Json>)
    ensures ItemsCount(stored, parse).None? <==> ReadData(stored, parse).None?
    ensures ReadData(stored, parse).Some? ==> CsvItemsCount(ReadData(stored, parse).value) == ItemsCount(stored, parse).value
  {
  }

  // ---------------------------------------------------------------- CSV

  /** `s.replace(/"/g, '""')`. */
  function DoubleQuotes(s: string): (r: string)
    ensures |r| >= |s|
    decreases |s|
  {
    if s == [] then []
    else (if s[0] == '"' then "\"\"" else [s[0]]) + DoubleQuotes(s[1..])
  }

  /** Quotes appear only in adjacent pairs: a reader of the quoted field
      meets no closing quote inside it. */
  predicate QuotesPaired(r: string)
    decreases |r|
  {
    r == []
    || (r[0] != '"' && QuotesPaired(r[1..]))
    || (|r| >= 2 && r[0] == '"' && r[1] == '"' && QuotesPaired(r[2..]))
  }

  /** Reading a quoted field's content back: each `""` is one `"`. */
  function Undouble(r: string): string
    decreases |r|
  {
    if r == [] then []
    else if |r| >= 2 && r[0] == '"' && r[1] == '"' then ['"'] + Undouble(r[2..])
    else [r[0]] + Undouble(r[1..])
  }

  lemma {:induction false} DoubleQuotesPaired(s: string)
    ensures QuotesPaired(DoubleQuotes(s))
    ensures Undouble(DoubleQuotes(s)) == s
    decreases |s|
  {
    if s != [] {
      DoubleQuotesPaired(s[1..]);
      var rest := DoubleQuotes(s[1..]);
      if s[0] == '"' {
        var r := "\"\"" + rest;
        assert DoubleQuotes(s) == r;
        assert r[2..] == rest;
      } else {
        var r := [s[0]] + rest;
        assert DoubleQuotes(s) == r;
        assert r[1..] == rest;
      }
      assert [s[0]] + s[1..] == s;
    }
  }

  /** A field written as `"${field.replace(/"/g, '""')}"`. */
  function Quoted(s: string): string {
    "\"" + DoubleQuotes(s) + "\""
  }

  /** The content between the quotes of a quoted field. */
  function Inside(q: string): string
    requires |q| >= 2
  {
    q[1..|q| - 1]
  }

  /** A quoted field opens and closes with a quote, holds quotes inside only
      in pairs, and reads back as the original text. */
  lemma QuotedReadsBack(s: string)
    ensures |Quoted(s)| >= 2 && Quoted(s)[0] == '"' && Quoted(s)[|Quoted(s)| - 1] == '"'
    ensures QuotesPaired(Inside(Quoted(s))) && Undouble(Inside(Quoted(s))) == s
  {
    DoubleQuotesPaired(s);
    assert Inside(Quoted(s)) == DoubleQuotes(s);
  }

  /** Some listed user has the id `id`. */
  predicate Listed(users: seq<UserSummary>, id: nat) {
    exists k :: 0 <= k < |users| && users[k].id == id
  }

  /** `users[k]` is the first listed user with the id `id`, the one
      `allUsers.find` returns. */
  predicate FirstListed(users: seq<UserSummary>, id: nat, k: int) {
    0 <= k < |users| && users[k].id == id && forall j :: 0 <= j < k ==> users[j].id != id
  }

  const CsvHeader: seq<string> := ["userId", "username", "email", "at", "itemsCount", "itemsJson"]

  /** The row of one progress entry, `None` where reading its data throws;
      `stringify` is `JSON.stringify`, `renderAt` the text of a stored time
      and `parse` is `JSON.parse`. */
  function CsvRow(users: seq<UserSummary>, stringify: Json -> string, renderAt: nat -> string,
                  parse: string -> Option<Json>, entry: ProgressRow): (row: Option<seq<string>>)
    ensures row.None? <==> ReadData(entry.data, parse).None?
    ensures row.Some? ==> |row.value| == |CsvHeader|
    ensures row.Some? ==>
      row.value[0] == NatToString(entry.userId) && row.value[4] == NatToString(ItemsCount(entry.data, parse).value)
    ensures row.Some? ==> forall k :: FirstListed(users, entry.userId, k) ==>
      row.value[1] == Quoted(users[k].username) && row.value[2] == Quoted(users[k].email)
    ensures row.Some? && !Listed(users, entry.userId) ==> row.value[1] == Quoted("") && row.value[2] == Quoted("")
    ensures row.Some? ==> row.value[3] == renderAt(entry.createdAt)
    ensures row.Some? ==> row.value[5] == Quoted(stringify(CsvItems(ReadData(entry.data, parse).value)))
  {
    FirstWhereIsFirst(users, (u: UserSummary) => u.id == entry.userId);
    var user := FirstWhere(users, (u: UserSummary) => u.id == entry.userId);
    var username := if user.Some? then user.value.username else "";
    var email := if user.Some? then user.value.email else "";
    match ReadData(entry.data, parse)
    case None => None
    case Some(data) =>
      Some([NatToString(entry.userId), Quoted(username), Quoted(email), renderAt(entry.createdAt),
            NatToString(CsvItemsCount(data)), Quoted(stringify(CsvItems(data)))])
  }

  /** The row of an entry whose owner is listed once carries that user's
      username and email, each read back exactly from its quoted field. */
  lemma CsvRowNamesOwner(users: seq<UserSummary>, stringify: Json -> string, renderAt: nat -> string,
                         parse: string -> Option<Json>, entry: ProgressRow, k: nat)
    requires k < |users| && users[k].id == entry.userId
    requires forall j :: 0 <= j < |users| && j != k ==> users[j].id != entry.userId
    requires ReadData(entry.data, parse).Some?
    ensures var row := CsvRow(users, stringify, renderAt, parse, entry).value;
      |row[1]| >= 2 && row[1][0] == '"' && row[1][|row[1]| - 1] == '"'
      && QuotesPaired(Inside(row[1])) && Undouble(Inside(row[1])) == users[k].username
      && |row[2]| >= 2 && row[2][0] == '"' && row[2][|row[2]| - 1] == '"'
      && QuotesPaired(Inside(row[2])) && Undouble(Inside(row[2])) == users[k].email
  {
    QuotedReadsBack(users[k].username);
    QuotedReadsBack(users[k].email);
  }

  /** The `rows` loop of the CSV export: the header, then one row per entry
      in the order given; an entry whose data cannot be read throws out of
      the loop, and the export answers 500 instead. */
  method BuildCsvRows(users: seq<UserSummary>, entries: seq<ProgressRow>,
                      stringify: Json -> string, renderAt: nat -> string, parse: string -> Option<Json>)
    returns (rows: Option<seq<seq<string>>>)
    ensures rows.None? <==> exists i :: 0 <= i < |entries| && ReadData(entries[i].data, parse).None?
    ensures rows.Some? ==> |rows.value| == |entries| + 1 && rows.value[0] == CsvHeader
    ensures rows.Some? ==> forall i :: 0 <= i < |entries| ==>
      rows.value[i + 1] == CsvRow(users, stringify, renderAt, parse, entries[i]).value
  {
    var built := [CsvHeader];
    var i := 0;
    while i < |entries|
      invariant 0 <= i <= |entries|
      invariant |built| == i + 1 && built[0] == CsvHeader
      invariant forall j :: 0 <= j < i ==> CsvRow(users, stringify, renderAt, parse, entries[j]).Some?
      invariant forall j :: 0 <= j < i ==> built[j + 1] == CsvRow(users, stringify, renderAt, parse, entries[j]).value
    {
      var row := CsvRow(users, stringify, renderAt, parse, entries[i]);
      if row.None? {
        return None;
      }
      built := built + [row.value];
      i := i + 1;
    }
    rows := Some(built);
  }

  /** `rows.map(r => r.join(',')).join('\n')`. */
  function CsvText(rows: seq<seq<string>>): string {
    Join(seq(|rows|, (i: int) requires 0 <= i < |rows| => Join(rows[i], ",")), "\n")
  }

  /** When no row holds a line break, the export has exactly one line per
      row, each the row's fields joined by commas. */
  lemma CsvLines(rows: seq<seq<string>>)
    requires |rows| > 0
    requires forall i :: 0 <= i < |rows| ==> '\n' !in Join(rows[i], ",")
    ensures Split(CsvText(rows), '\n') == seq(|rows|, (i: int) requires 0 <= i < |rows| => Join(rows[i], ","))
  {
    SplitJoin(seq(|rows|, (i: int) requires 0 <= i < |rows| => Join(rows[i], ",")), '\n');
  }
}
