/** The collaboration tables and the queries collab/service.go sends to
    them: the rows, the filtered topic query that ListTopics assembles with
    numbered placeholders, and the database's side of `ORDER BY`. */
module TopicQuery {
  import opened Wrappers
  import opened CollabTypes
  import StrConv

  // ---------------------------------------------------------------------
  // Rows

  /** A row of collab_topic. */
  datatype TopicRow = TopicRow(
    id: string,
    guid: string,
    title: string,
    description: Option<string>,
    priority: Option<string>,
    topicType: Option<string>,
    topicStatus: string,
    stage: Option<string>,
    assignedTo: Option<string>,
    dueDate: Option<string>,
    labels: Option<seq<string>>,
    projectId: string,
    creatorId: string,
    modifiedBy: Option<string>,
    createdAt: int,
    updatedAt: int)

  /** A row of collab_viewpoint; an empty `snapshotData` stands for NULL too. */
  datatype ViewpointRow = ViewpointRow(
    id: string,
    guid: string,
    topicId: string,
    cameraType: string,
    cameraPosition: Vector3,
    cameraDirection: Vector3,
    cameraUp: Vector3,
    fieldOfView: Option<Float64>,
    viewWorldScale: Option<Float64>,
    snapshotData: seq<byte>,
    snapshotType: Option<string>,
    components: string,
    clippingPlanes: string,
    createdAt: int)

  /** A row of collab_comment. */
  datatype CommentRow = CommentRow(
    id: string,
    body: string,
    viewpointId: Option<string>,
    topicId: string,
    authorId: string,
    createdAt: int,
    updatedAt: int)

  /** A row of collab_topic_file. */
  datatype TopicFile = TopicFile(topicId: string, fileVersionId: string)

  /** The database: the four tables, and the profile names joined in. */
  datatype Db = Db(
    topics: seq<TopicRow>,
    viewpoints: seq<ViewpointRow>,
    comments: seq<CommentRow>,
    topicFiles: seq<TopicFile>,
    profiles: map<string, string>)

  // ---------------------------------------------------------------------
  // ORDER BY

  /** `s` ordered by `key`, smallest first. */
  ghost predicate SortedBy<T>(s: seq<T>, key: T -> int) {
    forall i :: 0 < i < |s| ==> key(s[i - 1]) <= key(s[i])
  }

  function InsertBy<T>(x: T, s: seq<T>, key: T -> int): (r: seq<T>)
    ensures |r| == |s| + 1
    decreases |s|
  {
    if |s| == 0 then [x]
    else if key(x) <= key(s[0]) then [x] + s
    else [s[0]] + InsertBy(x, s[1..], key)
  }

  /** The rows in the order a database returns them for `ORDER BY key`. */
  function SortBy<T>(s: seq<T>, key: T -> int): (r: seq<T>)
    ensures |r| == |s|
    decreases |s|
  {
    if |s| == 0 then [] else InsertBy(s[0], SortBy(s[1..], key), key)
  }

  lemma {:induction false} InsertByMultiset<T>(x: T, s: seq<T>, key: T -> int)
    ensures multiset(InsertBy(x, s, key)) == multiset(s) + multiset{x}
    ensures InsertBy(x, s, key)[0] == x || (|s| > 0 && InsertBy(x, s, key)[0] == s[0])
    decreases |s|
  {
    if |s| > 0 && key(x) > key(s[0]) {
      InsertByMultiset(x, s[1..], key);
      assert s == [s[0]] + s[1..];
    }
  }

  lemma {:induction false} InsertBySorted<T>(x: T, s: seq<T>, key: T -> int)
    requires SortedBy(s, key)
    ensures SortedBy(InsertBy(x, s, key), key)
    decreases |s|
  {
    if |s| > 0 {
      if key(x) <= key(s[0]) {
        var r := [x] + s;
        forall i | 1 < i < |r|
          ensures key(r[i - 1]) <= key(r[i])
        {
          assert r[i - 1] == s[i - 2] && r[i] == s[i - 1];
        }
      } else {
        var t := s[1..];
        assert SortedBy(t, key) by {
          forall i | 0 < i < |t|
            ensures key(t[i - 1]) <= key(t[i])
          {
            assert t[i - 1] == s[i] && t[i] == s[i + 1];
          }
        }
        InsertBySorted(x, t, key);
        InsertByMultiset(x, t, key);
        var rest := InsertBy(x, t, key);
        assert key(s[0]) <= key(rest[0]) by {
          if |t| > 0 && rest[0] == t[0] {
            assert t[0] == s[1];
          }
        }
        var r := [s[0]] + rest;
        forall i | 1 < i < |r|
          ensures key(r[i - 1]) <= key(r[i])
        {
          assert r[i - 1] == rest[i - 2] && r[i] == rest[i - 1];
        }
      }
    }
  }

  /** The order the database gives is sorted and holds exactly the rows. */
  lemma {:induction false} SortByOrders<T>(s: seq<T>, key: T -> int)
    ensures SortedBy(SortBy(s, key), key)
    ensures multiset(SortBy(s, key)) == multiset(s)
    decreases |s|
  {
    if |s| > 0 {
      SortByOrders(s[1..], key);
      InsertByMultiset(s[0], SortBy(s[1..], key), key);
      InsertBySorted(s[0], SortBy(s[1..], key), key);
      assert s == [s[0]] + s[1..];
    }
  }

  // ---------------------------------------------------------------------
  // The ListTopics query

  datatype Column = TopicStatus | Priority | AssignedTo

  function ColumnName(c: Column): string {
    match c
    case TopicStatus => "t.topic_status"
    case Priority => "t.priority"
    case AssignedTo => "t.assigned_to"
  }

  /** `AND column = $k`: the column compared with the k-th argument. */
  datatype Condition = Condition(column: Column, placeholder: nat)

  /** A query text with its argument list; `$k` stands for `args[k-1]`. */
  datatype Query = Query(text: string, conditions: seq<Condition>, args: seq<string>)

  const SelectTopics: string :=
    "SELECT t.id, t.guid, t.title, t.description, t.priority, t.topic_type, t.topic_status, t.stage, " +
    "t.assigned_to, t.due_date, t.labels, t.project_id, t.creator_id, t.modified_by, t.created_at, " +
    "t.updated_at, p.name as creator_name FROM collab_topic t LEFT JOIN iam_profile p ON p.id = t.creator_id " +
    "WHERE t.project_id = $1"

  const NewestFirst: string := " ORDER BY t.created_at DESC"

  function ConditionText(c: Condition): string {
    " AND " + ColumnName(c.column) + " = $" + StrConv.FormatNat(c.placeholder)
  }

  function ConditionsText(cs: seq<Condition>): string
    decreases |cs|
  {
    if |cs| == 0 then "" else ConditionsText(cs[..|cs| - 1]) + ConditionText(cs[|cs| - 1])
  }

  /** The filter value of a column; "" means no filter. */
  function FilterValue(f: TopicFilters, c: Column): string {
    match c
    case TopicStatus => f.status
    case Priority => f.priority
    case AssignedTo => f.assignedTo
  }

  /** The filtered columns, in the order the query tests them. */
  function ActiveColumns(f: TopicFilters): (r: seq<Column>)
    ensures forall c :: c in r <==> FilterValue(f, c) != ""
  {
    AddColumn(AddColumn(AddColumn([], TopicStatus, f.status), Priority, f.priority), AssignedTo, f.assignedTo)
  }

  /** The columns so far, and the next one when it has a filter value. */
  function AddColumn(cols: seq<Column>, c: Column, value: string): seq<Column> {
    if value != "" then cols + [c] else cols
  }

  /** One condition per column, numbered from $2 on. */
  function Numbered(cols: seq<Column>): (r: seq<Condition>)
    ensures |r| == |cols|
  {
    seq(|cols|, k requires 0 <= k < |cols| => Condition(cols[k], k + 2))
  }

  /** The filter values of the columns, in order. */
  function Values(f: TopicFilters, cols: seq<Column>): (r: seq<string>)
    ensures |r| == |cols|
  {
    seq(|cols|, k requires 0 <= k < |cols| => FilterValue(f, cols[k]))
  }

  /** One more column takes the next placeholder and adds its value. */
  lemma NumberedSnoc(projectId: string, f: TopicFilters, cols: seq<Column>, c: Column)
    ensures Numbered(cols + [c]) == Numbered(cols) + [Condition(c, |cols| + 2)]
    ensures [projectId] + Values(f, cols + [c]) == [projectId] + Values(f, cols) + [FilterValue(f, c)]
  {
    var n := Numbered(cols + [c]);
    assert forall k :: 0 <= k < |cols| ==> n[k] == Numbered(cols)[k];
    var v := Values(f, cols + [c]);
    assert forall k :: 0 <= k < |cols| ==> v[k] == Values(f, cols)[k];
    assert v == Values(f, cols) + [FilterValue(f, c)];
  }

  /** The conditions of the ListTopics query, numbered from $2 on. */
  function ListConditions(f: TopicFilters): seq<Condition> {
    Numbered(ActiveColumns(f))
  }

  /** The arguments of the ListTopics query. */
  function ListArgs(projectId: string, f: TopicFilters): seq<string> {
    [projectId] + Values(f, ActiveColumns(f))
  }

  /** The query ListTopics sends for a project and its filters. */
  function ListQuery(projectId: string, f: TopicFilters): Query {
    Query(SelectTopics + ConditionsText(ListConditions(f)) + NewestFirst, ListConditions(f), ListArgs(projectId, f))
  }

  /** The ListTopics query text and arguments, with `argIdx` the next placeholder number. */
  method BuildListQuery(projectId: string, filters: TopicFilters) returns (query: Query)
    ensures query == ListQuery(projectId, filters)
  {
    var text := SelectTopics;
    var conditions: seq<Condition> := [];
    var args := [projectId];
    var argIdx: nat := 2;
    ghost var cols: seq<Column> := [];
    if filters.status != "" {
      NumberedSnoc(projectId, filters, cols, TopicStatus);
      conditions := conditions + [Condition(TopicStatus, argIdx)];
      args := args + [filters.status];
      argIdx := argIdx + 1;
    }
    cols := AddColumn(cols, TopicStatus, filters.status);
    assert conditions == Numbered(cols) && args == [projectId] + Values(filters, cols) && argIdx == |cols| + 2;
    if filters.priority != "" {
      NumberedSnoc(projectId, filters, cols, Priority);
      conditions := conditions + [Condition(Priority, argIdx)];
      args := args + [filters.priority];
      argIdx := argIdx + 1;
    }
    cols := AddColumn(cols, Priority, filters.priority);
    assert conditions == Numbered(cols) && args == [projectId] + Values(filters, cols) && argIdx == |cols| + 2;
    if filters.assignedTo != "" {
      NumberedSnoc(projectId, filters, cols, AssignedTo);
      conditions := conditions + [Condition(AssignedTo, argIdx)];
      args := args + [filters.assignedTo];
      argIdx := argIdx + 1;
    }
    cols := AddColumn(cols, AssignedTo, filters.assignedTo);
    assert conditions == Numbered(cols) && args == [projectId] + Values(filters, cols);
    assert cols == ActiveColumns(filters);
    text := text + ConditionsText(conditions) + NewestFirst;
    query := Query(text, conditions, args);
  }

  /** Placeholders run $2, $3, … without gaps, each `$k` names the
      argument at index k-1, that argument is the filter value of the
      condition's column, and the project id is `$1`. */
  lemma PlaceholdersAlign(projectId: string, f: TopicFilters)
    ensures var q := ListQuery(projectId, f);
      |q.args| == |q.conditions| + 1 && q.args[0] == projectId &&
      forall i :: 0 <= i < |q.conditions| ==>
        q.conditions[i].placeholder == i + 2 &&
        q.args[q.conditions[i].placeholder - 1] == FilterValue(f, q.conditions[i].column)
  {
  }

  /** A column gets a condition exactly when its filter is non-empty, and at most one. */
  lemma ConditionPerFilter(projectId: string, f: TopicFilters, c: Column)
    ensures var q := ListQuery(projectId, f);
      (FilterValue(f, c) != "" <==> exists i :: 0 <= i < |q.conditions| && q.conditions[i].column == c) &&
      forall i, j :: 0 <= i < j < |q.conditions| ==> q.conditions[i].column != q.conditions[j].column
  {
    var q := ListQuery(projectId, f);
    var cols := ActiveColumns(f);
    if FilterValue(f, c) != "" {
      var i :| 0 <= i < |cols| && cols[i] == c;
      assert q.conditions[i].column == c;
    }
  }

  /** With only a priority filter, the priority is `$2`. */
  lemma PlaceholderFollowsPresence(projectId: string, p: string)
    requires p != ""
    ensures ListQuery(projectId, TopicFilters("", p, "")).conditions == [Condition(Priority, 2)]
    ensures ListQuery(projectId, TopicFilters("", p, "")).args == [projectId, p]
  {
  }

  /** A row's value in a column; NULL is `None`, and a NULL never equals an argument. */
  function ColumnValue(row: TopicRow, c: Column): Option<string> {
    match c
    case TopicStatus => Some(row.topicStatus)
    case Priority => row.priority
    case AssignedTo => row.assignedTo
  }

  /** Whether the database selects a row for a query's conditions and arguments. */
  predicate Selects(conditions: seq<Condition>, args: seq<string>, row: TopicRow) {
    |args| > 0 && row.projectId == args[0] &&
    forall i :: 0 <= i < |conditions| ==>
      1 <= conditions[i].placeholder <= |args| &&
      ColumnValue(row, conditions[i].column) == Some(args[conditions[i].placeholder - 1])
  }

  /** What the filters mean: the project, and each non-empty filter. */
  predicate MatchesFilters(row: TopicRow, projectId: string, f: TopicFilters) {
    row.projectId == projectId &&
    (f.status != "" ==> row.topicStatus == f.status) &&
    (f.priority != "" ==> row.priority == Some(f.priority)) &&
    (f.assignedTo != "" ==> row.assignedTo == Some(f.assignedTo))
  }

  /** The query selects exactly the rows the filters describe. */
  lemma QueryMeansFilters(projectId: string, f: TopicFilters, row: TopicRow)
    ensures Selects(ListConditions(f), ListArgs(projectId, f), row) <==> MatchesFilters(row, projectId, f)
  {
    ColumnsMeanFilters(f, row);
    if Selects(ListConditions(f), ListArgs(projectId, f), row) {
      SelectedHasColumns(projectId, f, row);
    }
    if MatchesFilters(row, projectId, f) {
      ColumnsAreSelected(projectId, f, row);
    }
  }

  lemma ColumnsMeanFilters(f: TopicFilters, row: TopicRow)
    ensures (forall c :: c in ActiveColumns(f) ==> ColumnValue(row, c) == Some(FilterValue(f, c))) <==>
      (f.status != "" ==> row.topicStatus == f.status) &&
      (f.priority != "" ==> row.priority == Some(f.priority)) &&
      (f.assignedTo != "" ==> row.assignedTo == Some(f.assignedTo))
  {
    var cols := ActiveColumns(f);
    assert f.status != "" ==> TopicStatus in cols;
    assert f.priority != "" ==> Priority in cols;
    assert f.assignedTo != "" ==> AssignedTo in cols;
  }

  lemma SelectedHasColumns(projectId: string, f: TopicFilters, row: TopicRow)
    requires Selects(ListConditions(f), ListArgs(projectId, f), row)
    ensures row.projectId == projectId
    ensures forall c :: c in ActiveColumns(f) ==> ColumnValue(row, c) == Some(FilterValue(f, c))
  {
    var cols := ActiveColumns(f);
    var conds := ListConditions(f);
    var args := ListArgs(projectId, f);
    forall c | c in cols ensures ColumnValue(row, c) == Some(FilterValue(f, c)) {
      var i :| 0 <= i < |cols| && cols[i] == c;
      assert conds[i] == Condition(c, i + 2) && args[i + 1] == FilterValue(f, c);
    }
  }

  lemma ColumnsAreSelected(projectId: string, f: TopicFilters, row: TopicRow)
    requires row.projectId == projectId
    requires forall c :: c in ActiveColumns(f) ==> ColumnValue(row, c) == Some(FilterValue(f, c))
    ensures Selects(ListConditions(f), ListArgs(projectId, f), row)
  {
    var cols := ActiveColumns(f);
    var conds := ListConditions(f);
    var args := ListArgs(projectId, f);
    forall i | 0 <= i < |conds|
      ensures 1 <= conds[i].placeholder <= |args| &&
              ColumnValue(row, conds[i].column) == Some(args[conds[i].placeholder - 1])
    {
      assert conds[i] == Condition(cols[i], i + 2) && args[i + 1] == FilterValue(f, cols[i]);
      assert cols[i] in cols;
    }
  }

  /** The rows matching the filters, in table order. */
  function FilterRows(rows: seq<TopicRow>, projectId: string, f: TopicFilters): (r: seq<TopicRow>)
    ensures forall x :: x in r <==> x in rows && MatchesFilters(x, projectId, f)
    ensures forall x :: multiset(r)[x] == if MatchesFilters(x, projectId, f) then multiset(rows)[x] else 0
    decreases |rows|
  {
    if |rows| == 0 then []
    else
      var init := FilterRows(rows[..|rows| - 1], projectId, f);
      var last := rows[|rows| - 1];
      assert rows == rows[..|rows| - 1] + [last];
      assert multiset(rows) == multiset(rows[..|rows| - 1]) + multiset{last};
      if MatchesFilters(last, projectId, f) then init + [last] else init
  }

  /** Newest first: ordering by the negated creation time. */
  function NewestFirstKey(row: TopicRow): int { -row.createdAt }

  /** Oldest first, for viewpoints and comments. */
  function ViewpointCreated(row: ViewpointRow): int { row.createdAt }

  function CommentCreated(row: CommentRow): int { row.createdAt }

  /** The rows of `topics` the ListTopics query returns, newest first. */
  function ListedRows(topics: seq<TopicRow>, projectId: string, f: TopicFilters): seq<TopicRow> {
    SortBy(FilterRows(topics, projectId, f), NewestFirstKey)
  }

  /** The listed rows are the project's rows that match, each as often as
      in the table, newest first. */
  lemma ListedRowsMeaning(topics: seq<TopicRow>, projectId: string, f: TopicFilters)
    ensures var r := ListedRows(topics, projectId, f);
      (forall x :: x in r <==> x in topics && MatchesFilters(x, projectId, f)) &&
      multiset(r) == multiset(FilterRows(topics, projectId, f)) &&
      (forall x :: multiset(r)[x] == if MatchesFilters(x, projectId, f) then multiset(topics)[x] else 0) &&
      forall i :: 0 < i < |r| ==> r[i - 1].createdAt >= r[i].createdAt
  {
    var s := FilterRows(topics, projectId, f);
    SortByOrders(s, NewestFirstKey);
    var r := ListedRows(topics, projectId, f);
    forall x ensures x in r <==> x in s {
      assert x in r <==> x in multiset(r);
      assert x in s <==> x in multiset(s);
    }
    forall i | 0 < i < |r| ensures r[i - 1].createdAt >= r[i].createdAt {
      assert NewestFirstKey(r[i - 1]) <= NewestFirstKey(r[i]);
    }
  }
}
