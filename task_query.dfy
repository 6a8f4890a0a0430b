/** The query side of the command-line actions: the `list` filters, the
    `--sort` orders, the `search` predicate and the `stats` figures, all over
    a task list read from the store. */
module TaskQuery {
  import opened Wrappers
  import opened Records
  import opened Calendar
  import opened DateFns
  import JsString
  import JsArray
  import JsSort

  // ---- list filters -----------------------------------------------------------

  /** The `list` options `--status`, `--priority` and `--category`; the empty
      string stands for an option that was not given (a falsy value). */
  datatype Criteria = Criteria(status: string, priority: string, category: string)

  function FieldEquals(key: string, value: string): Task -> bool {
    t => FieldIs(t, key, value)
  }

  /** One `.filter` step, applied only when its option was given. */
  function FilterIfGiven(tasks: seq<Task>, key: string, value: string): seq<Task> {
    if value != "" then JsArray.Filter(tasks, FieldEquals(key, value)) else tasks
  }

  /** The filters of `list`, applied one after the other. */
  function ApplyFilters(tasks: seq<Task>, c: Criteria): seq<Task> {
    var byStatus := FilterIfGiven(tasks, "status", c.status);
    var byPriority := FilterIfGiven(byStatus, "priority", c.priority);
    FilterIfGiven(byPriority, "category", c.category)
  }

  /** A task meets every criterion that was given. */
  predicate MeetsCriteria(t: Task, c: Criteria) {
    && (c.status == "" || FieldIs(t, "status", c.status))
    && (c.priority == "" || FieldIs(t, "priority", c.priority))
    && (c.category == "" || FieldIs(t, "category", c.category))
  }

  function MeetsAll(c: Criteria): Task -> bool {
    t => MeetsCriteria(t, c)
  }

  function Given(key: string, value: string): Task -> bool {
    t => value == "" || FieldIs(t, key, value)
  }

  lemma FilterIfGivenIsFilter(tasks: seq<Task>, key: string, value: string)
    ensures FilterIfGiven(tasks, key, value) == JsArray.Filter(tasks, Given(key, value))
  {
    if value != "" {
      JsArray.FilterExt(tasks, FieldEquals(key, value), Given(key, value));
    } else {
      JsArray.FilterAll(tasks, Given(key, value));
    }
  }

  /** The chained filters keep, in their original order, exactly the tasks
      that meet every given criterion. */
  lemma ApplyFiltersIsConjunction(tasks: seq<Task>, c: Criteria)
    ensures ApplyFilters(tasks, c) == JsArray.Filter(tasks, MeetsAll(c))
    ensures forall t :: t in ApplyFilters(tasks, c) <==> t in tasks && MeetsCriteria(t, c)
  {
    ChainedFilters(tasks, c);
    JsArray.FilterMembers(tasks, MeetsAll(c));
  }

  lemma ChainedFilters(tasks: seq<Task>, c: Criteria)
    ensures ApplyFilters(tasks, c) == JsArray.Filter(tasks, MeetsAll(c))
  {
    var s, p, g := Given("status", c.status), Given("priority", c.priority), Given("category", c.category);
    FilterIfGivenIsFilter(tasks, "status", c.status);
    var a := FilterIfGiven(tasks, "status", c.status);
    FilterIfGivenIsFilter(a, "priority", c.priority);
    var b := FilterIfGiven(a, "priority", c.priority);
    FilterIfGivenIsFilter(b, "category", c.category);
    assert ApplyFilters(tasks, c) == JsArray.Filter(JsArray.Filter(JsArray.Filter(tasks, s), p), g);
    JsArray.FilterFilter3(tasks, s, p, g, MeetsAll(c));
  }

  /** With no option given, `list` shows every task. */
  lemma NoCriteriaKeepsAll(tasks: seq<Task>)
    ensures ApplyFilters(tasks, Criteria("", "", "")) == tasks
  {
  }

  // ---- search -----------------------------------------------------------------

  datatype SearchError = DescriptionNotString

  predicate HasDescription(t: Task) {
    "description" in t && t["description"].Str?
  }

  /** The search predicate: the lower-cased description contains the
      lower-cased query. */
  predicate DescriptionMatches(t: Task, query: string)
    requires HasDescription(t)
  {
    JsString.Includes(JsString.Lower(t["description"].s), JsString.Lower(query))
  }

  function MatchesQuery(query: string): Task -> bool {
    t => HasDescription(t) && DescriptionMatches(t, query)
  }

  /** `search`: the tasks whose description contains the query, letter case
      aside, in their stored order. A task whose description is not a string
      makes the filter throw a `TypeError`. */
  function Search(tasks: seq<Task>, query: string): (r: Result<seq<Task>, SearchError>)
    ensures r.Err? <==> exists i :: 0 <= i < |tasks| && !HasDescription(tasks[i])
    ensures r.Ok? ==> |r.value| <= |tasks|
    ensures r.Ok? ==> forall t :: t in r.value <==> t in tasks && DescriptionMatches(t, query)
    ensures r.Ok? ==> r.value == JsArray.Filter(tasks, MatchesQuery(query))
  {
    if exists i :: 0 <= i < |tasks| && !HasDescription(tasks[i]) then Err(DescriptionNotString)
    else
      JsArray.FilterMembers(tasks, MatchesQuery(query));
      Ok(JsArray.Filter(tasks, MatchesQuery(query)))
  }

  /** A task is found exactly when the lowered query occurs somewhere in its
      lowered description. */
  lemma SearchFinds(tasks: seq<Task>, query: string, t: Task)
    requires Search(tasks, query).Ok?
    ensures t in Search(tasks, query).value ==>
      t in tasks && exists i :: JsString.OccursAt(JsString.Lower(t["description"].s), JsString.Lower(query), i)
    ensures t in tasks && (exists i :: JsString.OccursAt(JsString.Lower(t["description"].s), JsString.Lower(query), i)) ==>
      t in Search(tasks, query).value
  {
    JsArray.FilterMembers(tasks, MatchesQuery(query));
    if t in tasks {
      var k :| 0 <= k < |tasks| && tasks[k] == t;
      assert HasDescription(tasks[k]);
      var d, q := JsString.Lower(t["description"].s), JsString.Lower(query);
      if JsString.Includes(d, q) {
        var i := JsString.IncludesWitness(d, q);
        assert MatchesQuery(query)(t);
      } else {
        JsString.IncludesIff(d, q);
      }
    }
  }

  /** Searching a list made of two parts finds the matches of the first part
      followed by those of the second, so the results keep the stored order. */
  lemma SearchAppend(a: seq<Task>, b: seq<Task>, query: string)
    requires Search(a + b, query).Ok?
    ensures Search(a, query).Ok? && Search(b, query).Ok?
    ensures Search(a + b, query).value == Search(a, query).value + Search(b, query).value
  {
    forall i | 0 <= i < |a|
      ensures HasDescription(a[i])
    {
      assert (a + b)[i] == a[i];
    }
    forall i | 0 <= i < |b|
      ensures HasDescription(b[i])
    {
      assert (a + b)[|a| + i] == b[i];
    }
    JsArray.FilterAppend(a, b, MatchesQuery(query));
  }

  /** The empty query matches every task. */
  lemma EmptyQueryMatchesAll(tasks: seq<Task>)
    requires Search(tasks, "").Ok?
    ensures Search(tasks, "") == Ok(tasks)
  {
    JsArray.FilterAll(tasks, MatchesQuery(""));
  }

  /** The query's letter case does not matter. */
  lemma SearchIgnoresCase(tasks: seq<Task>, query: string)
    ensures Search(tasks, query) == Search(tasks, JsString.Lower(query))
  {
    JsString.LowerIdempotent(query);
    JsArray.FilterExt(tasks, MatchesQuery(query), MatchesQuery(JsString.Lower(query)));
  }

  // ---- sortTasks --------------------------------------------------------------

  /** The priority comparator's ranks. */
  function PriorityRank(t: Task): int {
    if FieldIs(t, "priority", "high") then 0
    else if FieldIs(t, "priority", "medium") then 1
    else 2
  }

  /** The status comparator: pending before completed. */
  function StatusRank(t: Task): int {
    if FieldIs(t, "status", "pending") then 0 else 1
  }

  /** The day ordinals of the years up to 9999 all lie below this one, which
      is used for a task without a due date. */
  const Undated := DaysBeforeYear(10000)

  predicate HasDueDate(t: Task) {
    FieldTruthy(t, "dueDate") && t["dueDate"].Str? && ParseIsoDate(t["dueDate"].s).Some?
  }

  function DueDate(t: Task): (d: Date)
    requires HasDueDate(t)
    ensures IsRealDate(d) && d.year <= 9999
  {
    ParseIsoDate(t["dueDate"].s).value
  }

  /** The due comparator: the due day's ordinal, after all of them when
      there is no due date. */
  function DueRank(t: Task): int {
    if HasDueDate(t) then DayNumber(DueDate(t)) else Undated
  }

  predicate IsSortField(field: string) {
    field == "priority" || field == "due" || field == "status"
  }

  function SortKey(field: string): Task -> int
    requires IsSortField(field)
  {
    if field == "priority" then PriorityRank
    else if field == "status" then StatusRank
    else DueRank
  }

  /** The tasks the comparators order consistently: for `priority` every
      task has one of the three priorities, for `status` every task is
      pending or completed, for `due` every truthy due date is a valid
      `YYYY-MM-DD` string. */
  predicate Sortable(tasks: seq<Task>, field: string) {
    && (field == "priority" ==> forall i :: 0 <= i < |tasks| ==>
          FieldIs(tasks[i], "priority", "high") || FieldIs(tasks[i], "priority", "medium") ||
          FieldIs(tasks[i], "priority", "low"))
    && (field == "status" ==> forall i :: 0 <= i < |tasks| ==>
          FieldIs(tasks[i], "status", "pending") || FieldIs(tasks[i], "status", "completed"))
    && (field == "due" ==> forall i :: 0 <= i < |tasks| ==>
          FieldTruthy(tasks[i], "dueDate") ==> HasDueDate(tasks[i]))
  }

  /** What `sortTasks` returns: a stable sort by the field's comparator, or
      an unchanged copy for any other field. */
  function SortedView(tasks: seq<Task>, field: string): seq<Task> {
    if IsSortField(field) then JsSort.SortByKey(tasks, SortKey(field)) else tasks
  }

  /** `sortTasks`: copy the list into a fresh array, sort the copy in place,
      and return it; the input is not touched. */
  method SortTasks(tasks: seq<Task>, field: string) returns (sorted: seq<Task>)
    requires Sortable(tasks, field)
    ensures sorted == SortedView(tasks, field)
    ensures multiset(sorted) == multiset(tasks)
    ensures !IsSortField(field) ==> sorted == tasks
  {
    var a := new Task[|tasks|](i requires 0 <= i < |tasks| => tasks[i]);
    assert a[..] == tasks;
    if IsSortField(field) {
      JsSort.SortInPlace(a, SortKey(field));
      JsSort.SortByKeyPermutes(tasks, SortKey(field));
    }
    sorted := a[..];
  }

  lemma SortedMembers(tasks: seq<Task>, field: string)
    ensures forall t :: t in SortedView(tasks, field) <==> t in tasks
  {
    if IsSortField(field) {
      JsSort.SortByKeyPermutes(tasks, SortKey(field));
      assert forall t :: t in SortedView(tasks, field) <==> t in multiset(tasks);
    }
  }

  /** Sorting by priority puts high before medium before low, and keeps the
      tasks of one priority in their input order. */
  lemma PriorityOrder(tasks: seq<Task>, level: string)
    requires Sortable(tasks, "priority")
    requires level == "high" || level == "medium" || level == "low"
    ensures var r := SortedView(tasks, "priority");
      forall i, j :: 0 <= i < j < |r| ==> PriorityRank(r[i]) <= PriorityRank(r[j])
    ensures var r := SortedView(tasks, "priority");
      JsArray.Filter(r, FieldEquals("priority", level)) == JsArray.Filter(tasks, FieldEquals("priority", level))
  {
    var r := SortedView(tasks, "priority");
    JsSort.SortByKeySorted(tasks, PriorityRank);
    var k := if level == "high" then 0 else if level == "medium" then 1 else 2;
    JsSort.SortByKeyStable(tasks, PriorityRank, k);
    SortedMembers(tasks, "priority");
    JsArray.FilterExt(tasks, JsSort.KeyIs(PriorityRank, k), FieldEquals("priority", level));
    assert forall i :: 0 <= i < |r| ==> r[i] in tasks;
    JsArray.FilterExt(r, JsSort.KeyIs(PriorityRank, k), FieldEquals("priority", level));
  }

  /** Sorting by status puts every pending task before every completed one,
      keeping the input order within each group. */
  lemma StatusOrder(tasks: seq<Task>, status: string)
    requires Sortable(tasks, "status")
    requires status == "pending" || status == "completed"
    ensures var r := SortedView(tasks, "status");
      forall i, j :: 0 <= i < j < |r| ==> !(FieldIs(r[i], "status", "completed") && FieldIs(r[j], "status", "pending"))
    ensures var r := SortedView(tasks, "status");
      JsArray.Filter(r, FieldEquals("status", status)) == JsArray.Filter(tasks, FieldEquals("status", status))
  {
    var r := SortedView(tasks, "status");
    JsSort.SortByKeySorted(tasks, StatusRank);
    var k := if status == "pending" then 0 else 1;
    JsSort.SortByKeyStable(tasks, StatusRank, k);
    SortedMembers(tasks, "status");
    JsArray.FilterExt(tasks, JsSort.KeyIs(StatusRank, k), FieldEquals("status", status));
    assert forall i :: 0 <= i < |r| ==> r[i] in tasks;
    JsArray.FilterExt(r, JsSort.KeyIs(StatusRank, k), FieldEquals("status", status));
  }

  /** Sorting by due date puts every task with a due date before every task
      without one, and the dated tasks in calendar order. */
  lemma DueOrder(tasks: seq<Task>)
    requires Sortable(tasks, "due")
    ensures var r := SortedView(tasks, "due");
      forall i, j :: 0 <= i < j < |r| ==> !(!HasDueDate(r[i]) && HasDueDate(r[j]))
    ensures var r := SortedView(tasks, "due");
      forall i, j :: 0 <= i < j < |r| && HasDueDate(r[i]) && HasDueDate(r[j]) ==>
        !Before(DueDate(r[j]), DueDate(r[i]))
  {
    var r := SortedView(tasks, "due");
    JsSort.SortByKeySorted(tasks, DueRank);
    forall i, j | 0 <= i < j < |r| && HasDueDate(r[j])
      ensures HasDueDate(r[i])
    {
      OrdinalBelowYear10000(DueDate(r[j]));
    }
    forall i, j | 0 <= i < j < |r| && HasDueDate(r[i]) && HasDueDate(r[j])
      ensures !Before(DueDate(r[j]), DueDate(r[i]))
    {
      OrdinalOrder(DueDate(r[j]), DueDate(r[i]));
    }
  }

  /** Three tasks of low, high and medium priority come out high, medium,
      low. */
  lemma PriorityExample(low: Task, high: Task, medium: Task)
    requires FieldIs(low, "priority", "low") && FieldIs(high, "priority", "high")
    requires FieldIs(medium, "priority", "medium")
    ensures SortedView([low, high, medium], "priority") == [high, medium, low]
  {
    assert PriorityRank(high) < PriorityRank(medium) < PriorityRank(low);
    JsSort.SortThree(low, high, medium, PriorityRank);
  }

  // ---- stats ------------------------------------------------------------------

  lemma MulMonotone(t: int, a: int, b: int)
    requires t >= 0 && a <= b
    ensures t * a <= t * b
  {
    assert t * b - t * a == t * (b - a);
  }

  /** `Math.round((completed / total) * 100)` in exact arithmetic: the whole
      percentage nearest to `100 * completed / total`, halves rounded up. */
  function CompletionPercent(completed: nat, total: nat): (r: int)
    requires total > 0
    ensures total * (2 * r - 1) <= 200 * completed < total * (2 * r + 1)
    ensures completed <= total ==> 0 <= r <= 100
  {
    var n, d := 200 * completed + total, 2 * total;
    var q := n / d;
    assert n == d * q + n % d;
    assert total * (2 * q - 1) == d * q - total;
    assert total * (2 * q + 1) == d * q + total;
    assert completed <= total ==> q <= 100 by {
      if completed <= total && q > 100 {
        MulMonotone(total, 201, 2 * q - 1);
      }
    }
    q
  }

  /** What `stats` reports: nothing for an empty list, otherwise the counts
      by status and by priority and the completed percentage. */
  datatype Stats =
    | NoTasks
    | Summary(total: nat, completed: nat, pending: nat, percentage: int, high: nat, medium: nat, low: nat)

  function StatsOf(tasks: seq<Task>): Stats {
    if |tasks| == 0 then NoTasks
    else
      var completed := JsArray.Count(tasks, FieldEquals("status", "completed"));
      Summary(|tasks|, completed, JsArray.Count(tasks, FieldEquals("status", "pending")),
              CompletionPercent(completed, |tasks|),
              JsArray.Count(tasks, FieldEquals("priority", "high")),
              JsArray.Count(tasks, FieldEquals("priority", "medium")),
              JsArray.Count(tasks, FieldEquals("priority", "low")))
  }

  /** `stats`: the status counts by filtering, the priority counts by one
      pass that bumps the bucket of each task whose priority is one of the
      three. */
  method ComputeStats(tasks: seq<Task>) returns (stats: Stats)
    ensures stats == StatsOf(tasks)
  {
    if |tasks| == 0 {
      return NoTasks;
    }
    var completed := JsArray.Count(tasks, FieldEquals("status", "completed"));
    var pending := JsArray.Count(tasks, FieldEquals("status", "pending"));
    var percentage := CompletionPercent(completed, |tasks|);
    var high, medium, low := 0, 0, 0;
    for i := 0 to |tasks|
      invariant high == JsArray.Count(tasks[..i], FieldEquals("priority", "high"))
      invariant medium == JsArray.Count(tasks[..i], FieldEquals("priority", "medium"))
      invariant low == JsArray.Count(tasks[..i], FieldEquals("priority", "low"))
    {
      var t := tasks[i];
      assert tasks[..i + 1] == tasks[..i] + [t];
      JsArray.CountSnoc(tasks[..i], t, FieldEquals("priority", "high"));
      JsArray.CountSnoc(tasks[..i], t, FieldEquals("priority", "medium"));
      JsArray.CountSnoc(tasks[..i], t, FieldEquals("priority", "low"));
      if FieldIs(t, "priority", "high") {
        high := high + 1;
      } else if FieldIs(t, "priority", "medium") {
        medium := medium + 1;
      } else if FieldIs(t, "priority", "low") {
        low := low + 1;
      }
    }
    assert tasks[..|tasks|] == tasks;
    stats := Summary(|tasks|, completed, pending, percentage, high, medium, low);
  }

  /** The reported figures are consistent: completed and pending tasks, and
      the three priority buckets, each add up to at most the total; the
      percentage lies between 0 and 100; rounding makes it 100 as soon as at
      least 199 tasks in 200 are completed and 0 exactly when fewer than one
      task in 200 is. */
  lemma StatsBounds(tasks: seq<Task>)
    requires |tasks| > 0
    ensures var s := StatsOf(tasks);
      && s.completed + s.pending <= s.total
      && s.high + s.medium + s.low <= s.total
      && 0 <= s.percentage <= 100
      && (s.percentage == 100 <==> 200 * s.completed >= 199 * s.total)
      && (s.percentage == 0 <==> 200 * s.completed < s.total)
  {
    JsArray.CountDisjoint2(tasks, FieldEquals("status", "completed"), FieldEquals("status", "pending"));
    JsArray.CountDisjoint3(tasks, FieldEquals("priority", "high"), FieldEquals("priority", "medium"),
                           FieldEquals("priority", "low"));
    var s := StatsOf(tasks);
    var t, c, r := s.total, s.completed, s.percentage;
    if 200 * c >= 199 * t && r < 100 {
      MulMonotone(t, 2 * r + 1, 199);
    }
    if r == 100 {
      assert t * 199 <= 200 * c;
    }
    if r > 0 && 200 * c < t {
      MulMonotone(t, 1, 2 * r - 1);
    }
    if r == 0 {
      assert 200 * c < t * 1;
    }
  }

  /** More completed tasks never lower the percentage. */
  lemma PercentMonotone(c1: nat, c2: nat, total: nat)
    requires total > 0 && c1 <= c2
    ensures CompletionPercent(c1, total) <= CompletionPercent(c2, total)
  {
    var r1, r2 := CompletionPercent(c1, total), CompletionPercent(c2, total);
    if r1 > r2 {
      MulMonotone(total, 2 * r2 + 1, 2 * r1 - 1);
      assert false;
    }
  }

  /** Two completed tasks out of three show as 67% done and 33% pending. */
  lemma TwoOfThree()
    ensures CompletionPercent(2, 3) == 67 && 100 - CompletionPercent(2, 3) == 33
  {
  }

  /** Six tasks, two high, three medium and one low, fill the priority
      buckets with exactly those counts. */
  lemma PriorityBuckets(h1: Task, h2: Task, m1: Task, m2: Task, m3: Task, l1: Task)
    requires FieldIs(h1, "priority", "high") && FieldIs(h2, "priority", "high")
    requires FieldIs(m1, "priority", "medium") && FieldIs(m2, "priority", "medium")
    requires FieldIs(m3, "priority", "medium") && FieldIs(l1, "priority", "low")
    ensures var s := StatsOf([h1, h2, m1, m2, m3, l1]);
      s.Summary? && s.total == 6 && s.high == 2 && s.medium == 3 && s.low == 1
  {
    CountSix(h1, h2, m1, m2, m3, l1, FieldEquals("priority", "high"));
    CountSix(h1, h2, m1, m2, m3, l1, FieldEquals("priority", "medium"));
    CountSix(h1, h2, m1, m2, m3, l1, FieldEquals("priority", "low"));
  }

  lemma CountSix<T>(a: T, b: T, c: T, d: T, e: T, f: T, keep: T -> bool)
    ensures JsArray.Count([a, b, c, d, e, f], keep) ==
      (if keep(a) then 1 else 0) + (if keep(b) then 1 else 0) + (if keep(c) then 1 else 0) +
      (if keep(d) then 1 else 0) + (if keep(e) then 1 else 0) + (if keep(f) then 1 else 0)
  {
    JsArray.CountSnoc([a], b, keep);
    JsArray.CountSnoc([a, b], c, keep);
    JsArray.CountSnoc([a, b, c], d, keep);
    JsArray.CountSnoc([a, b, c, d], e, keep);
    JsArray.CountSnoc([a, b, c, d, e], f, keep);
    assert [a] + [b] == [a, b];
    assert [a, b] + [c] == [a, b, c];
    assert [a, b, c] + [d] == [a, b, c, d];
    assert [a, b, c, d] + [e] == [a, b, c, d, e];
    assert [a, b, c, d, e] + [f] == [a, b, c, d, e, f];
  }
}
