/** The task list operation's inputs: `parseIdList`, the filter-to-query builder, the
    endpoint choice, and the single-page query. */
module TaskFilters {
  import opened Wrappers
  import opened JsStrings
  import opened JsNumbers
  import opened JsValues
  import opened Paginator

  // ---------------------------------------------------------------------------
  // parseIdList

  /** The `map` callback of `parseIdList`: `None` stands for the `null` it returns. A number
      is kept as it is, NaN included; every other value goes through `Number()`, and a NaN
      from that conversion becomes `null`. */
  function IdOf(v: Value): Option<Num> {
    match v
    case Undefined => None
    case Null => None
    case Number(n) => Some(n)
    case Str(s) =>
      var t := Trim(s);
      if t == "" then None
      else var n := StringToNumber(t); if n == NaN then None else Some(n)
    case _ =>
      var n := ToNumber(v);
      if n == NaN then None else Some(n)
  }

  /** `values.map(IdOf).filter(val => val !== null && !isNaN(val))`. */
  function KeepIds(values: seq<Value>): (ids: seq<Num>)
    ensures |ids| <= |values|
    ensures forall i :: 0 <= i < |ids| ==> ids[i] != NaN
  {
    if |values| == 0 then []
    else
      var head := match IdOf(values[0]) case Some(n) => if n == NaN then [] else [n] case None => [];
      head + KeepIds(values[1..])
  }

  /** Each piece of a split string, as a string value. */
  function StrValues(parts: seq<string>): (vs: seq<Value>)
    ensures |vs| == |parts|
  {
    if |parts| == 0 then [] else [Str(parts[0])] + StrValues(parts[1..])
  }

  /** `parseIdList(input)`: nothing for `undefined`, `null` and `''`; an array's entries; a
      string, once trimmed, read as a JSON array when it parses to one and otherwise split on
      commas; nothing for any other value. */
  function ParseIdList(input: Value, parse: JsonParser): seq<Num> {
    match input
    case Undefined => []
    case Null => []
    case Arr(vs) => KeepIds(vs)
    case Str(s) =>
      if s == "" then []
      else
        var t := Trim(s);
        if t == "" then []
        else
          var parsed := parse(t);
          if parsed.Some? && parsed.value.Arr? then KeepIds(parsed.value.items)
          else KeepIds(StrValues(Split(t, ',')))
    case _ => []
  }

  // ---------------------------------------------------------------------------
  // Properties of parseIdList

  /** Filtering keeps the input order: the ids of a concatenation are the ids of each part,
      concatenated. */
  lemma {:induction false} KeepIdsAppend(a: seq<Value>, b: seq<Value>)
    ensures KeepIds(a + b) == KeepIds(a) + KeepIds(b)
  {
    if |a| > 0 {
      assert (a + b)[1..] == a[1..] + b;
      assert (a + b)[0] == a[0];
      KeepIdsAppend(a[1..], b);
      var head := KeepIds([a[0]]);
      KeepIdsSingle(a[0]);
      assert KeepIds(a) == head + KeepIds(a[1..]);
      assert KeepIds(a + b) == head + (KeepIds(a[1..]) + KeepIds(b));
    } else {
      assert a + b == b;
    }
  }

  /** One entry contributes its id, or nothing when it is `null`, `undefined`, blank or not a
      number. */
  lemma {:induction false} KeepIdsSingle(v: Value)
    ensures KeepIds([v]) == (if IdOf(v).Some? && IdOf(v).value != NaN then [IdOf(v).value] else [])
  {
    assert [v][1..] == [];
  }

  /** Blank and missing entries are dropped. */
  lemma {:induction false} BlankEntriesDropped(s: string)
    requires Trim(s) == ""
    ensures KeepIds([Str(s)]) == [] && KeepIds([Null]) == [] && KeepIds([Undefined]) == []
  {
    KeepIdsSingle(Str(s));
    KeepIdsSingle(Null);
    KeepIdsSingle(Undefined);
  }

  /** An array of non-NaN numbers is returned as it is. */
  lemma {:induction false} NumbersKept(ns: seq<Num>)
    requires forall i :: 0 <= i < |ns| ==> ns[i] != NaN
    ensures KeepIds(NumberValues(ns)) == ns
  {
    if |ns| > 0 {
      assert NumberValues(ns)[1..] == NumberValues(ns[1..]);
      NumbersKept(ns[1..]);
    }
  }

  /** Empty input, blank strings and values that are neither strings nor arrays give no ids. */
  lemma {:induction false} NothingParsed(input: Value, parse: JsonParser)
    requires || input.Undefined? || input.Null? || input.Bool? || input.Number? || input.Obj?
             || (input.Str? && Trim(input.s) == "")
    ensures ParseIdList(input, parse) == []
  {
  }

  /** A string that parses to a JSON array contributes that array's entries. */
  lemma {:induction false} JsonArrayString(s: string, parse: JsonParser, vs: seq<Value>)
    requires Trim(s) != "" && parse(Trim(s)) == Some(Arr(vs))
    ensures ParseIdList(Str(s), parse) == KeepIds(vs)
  {
  }

  /** The decimal numerals of a non-empty list of naturals, joined with commas, read back as
      those naturals whenever the joined text does not parse to a JSON array. */
  lemma {:induction false} CsvRoundTrip(ns: seq<nat>, parse: JsonParser)
    requires |ns| >= 1
    requires var t := Join(Numerals(ns), ','); !(parse(t).Some? && parse(t).value.Arr?)
    ensures ParseIdList(Str(Join(Numerals(ns), ',')), parse) == Fins(ns)
  {
    var parts := Numerals(ns);
    var t := Join(parts, ',');
    JoinNumerals(ns);
    TrimUnpadded(t);
    CommaSeparated(t, parse);
    SplitJoin(parts, ',');
    NumeralsRead(ns);
  }

  /** Text that is not blank and whose trimmed form does not parse to a JSON array is
      trimmed once and split on commas. */
  lemma {:induction false} CommaSeparated(s: string, parse: JsonParser)
    requires Trim(s) != ""
    requires !(parse(Trim(s)).Some? && parse(Trim(s)).value.Arr?)
    ensures ParseIdList(Str(s), parse) == KeepIds(StrValues(Split(Trim(s), ',')))
  {
    NonBlankNotEmpty(s);
    var t := Trim(s);
    assert ParseIdList(Str(s), parse) == KeepIds(StrValues(Split(t, ',')));
  }

  /** Only non-empty text can trim to something non-blank. */
  lemma {:induction false} NonBlankNotEmpty(s: string)
    requires Trim(s) != ""
    ensures s != ""
  {
    assert Trim("") == "";
  }

  // ---------------------------------------------------------------------------
  // Helpers for the properties above

  /** Numbers as number values. */
  function NumberValues(ns: seq<Num>): (vs: seq<Value>)
    ensures |vs| == |ns|
  {
    if |ns| == 0 then [] else [Number(ns[0])] + NumberValues(ns[1..])
  }

  function Numerals(ns: seq<nat>): (ss: seq<string>)
    ensures |ss| == |ns|
  {
    if |ns| == 0 then [] else [Numeral(ns[0])] + Numerals(ns[1..])
  }

  function Fins(ns: seq<nat>): (xs: seq<Num>)
    ensures |xs| == |ns|
  {
    if |ns| == 0 then [] else [Fin(ns[0] as real)] + Fins(ns[1..])
  }

  /** A decimal digit is neither white space nor a comma. */
  lemma {:induction false} DigitIsPlain(c: char)
    requires IsDigitIn(c, 10)
    ensures !IsSpace(c) && c != ','
  {
  }

  /** Joined numerals start and end with a digit, so `trim` keeps them whole, and no numeral
      holds a comma. */
  lemma {:induction false} JoinNumerals(ns: seq<nat>)
    requires |ns| >= 1
    ensures |Join(Numerals(ns), ',')| >= 1 && Unpadded(Join(Numerals(ns), ','))
    ensures forall k :: 0 <= k < |ns| ==> ',' !in Numerals(ns)[k]
  {
    var parts := Numerals(ns);
    var s := Numeral(ns[0]);
    assert parts[0] == s;
    DigitIsPlain(s[0]);
    assert ',' !in s by {
      forall j | 0 <= j < |s| ensures s[j] != ',' {
        DigitIsPlain(s[j]);
      }
    }
    if |ns| > 1 {
      JoinNumerals(ns[1..]);
      assert parts[1..] == Numerals(ns[1..]);
      var rest := Join(parts[1..], ',');
      assert Join(parts, ',') == s + [','] + rest;
      assert forall k :: 1 <= k < |ns| ==> parts[k] == Numerals(ns[1..])[k - 1];
    } else {
      DigitIsPlain(s[|s| - 1]);
    }
  }

  /** Each numeral, trimmed and converted, gives back its number. */
  lemma {:induction false} NumeralsRead(ns: seq<nat>)
    ensures KeepIds(StrValues(Numerals(ns))) == Fins(ns)
  {
    if |ns| > 0 {
      var s := Numeral(ns[0]);
      DigitIsPlain(s[0]);
      DigitIsPlain(s[|s| - 1]);
      TrimUnpadded(s);
      NumeralToNumber(ns[0]);
      assert IdOf(Str(s)) == Some(Fin(ns[0] as real));
      assert StrValues(Numerals(ns))[1..] == StrValues(Numerals(ns[1..]));
      NumeralsRead(ns[1..]);
    }
  }

  // ---------------------------------------------------------------------------
  // The query built from the task filters

  /** One entry of `listFilterMap`: a filter field and the query key it fills. */
  datatype ListFilter = ListFilter(field: string, key: string)

  const ListFilterMap: seq<ListFilter> := [
    ListFilter("userIds", "user_ids[]"),
    ListFilter("projectIds", "project_ids[]"),
    ListFilter("globalTodoIds", "global_todo_ids[]")
  ]

  /** The paging and status part of `qsBase`: `page_start_id` when set, `page_limit` as both
      `page_limit` and `per_page` when set, `status[]` when the status list is a non-empty
      array. */
  function PagingQuery(filters: Value): seq<(string, Value)> {
    var start := Get(filters, "page_start_id");
    var limit := Get(filters, "page_limit");
    var status := Get(filters, "status");
    var q1 := if Truthy(start) then SetField([], "page_start_id", start) else [];
    var q2 := if Truthy(limit) then SetField(SetField(q1, "page_limit", limit), "per_page", limit) else q1;
    if Truthy(status) && status.Arr? && |status.items| > 0 then SetField(q2, "status[]", status) else q2
  }

  /** The `for (const filter of listFilterMap)` loop: each id filter whose parsed list is
      non-empty sets its key to the list. */
  function AddIdFilters(q: seq<(string, Value)>, filters: Value, entries: seq<ListFilter>, parse: JsonParser): seq<(string, Value)>
    decreases |entries|
  {
    if |entries| == 0 then q
    else
      var values := ParseIdList(Get(filters, entries[0].field), parse);
      var q' := if |values| > 0 then SetField(q, entries[0].key, Arr(NumberValues(values))) else q;
      AddIdFilters(q', filters, entries[1..], parse)
  }

  /** `qsBase` for the task list. */
  function TaskQuery(filters: Value, parse: JsonParser): seq<(string, Value)> {
    AddIdFilters(PagingQuery(filters), filters, ListFilterMap, parse)
  }

  /** A field `(key, v)` present only when `cond` holds. */
  function Optional(cond: bool, key: string, v: Value): seq<(string, Value)> {
    if cond then [(key, v)] else []
  }

  /** The ids a list filter contributes, as the query value. */
  function IdsValue(filters: Value, field: string, parse: JsonParser): Value {
    Arr(NumberValues(ParseIdList(Get(filters, field), parse)))
  }

  /** Whether a list filter contributes its key. */
  predicate HasIds(filters: Value, field: string, parse: JsonParser) {
    |ParseIdList(Get(filters, field), parse)| > 0
  }

  /** Every filter key is written once, in the order the builder writes them: each key is
      present exactly when its filter is set (a non-empty status array, a non-empty id list),
      `page_limit` is copied to `per_page`, and no other key appears. */
  lemma {:induction false} TaskQueryFields(filters: Value, parse: JsonParser)
    ensures TaskQuery(filters, parse) ==
              Optional(Truthy(Get(filters, "page_start_id")), "page_start_id", Get(filters, "page_start_id"))
            + Optional(Truthy(Get(filters, "page_limit")), "page_limit", Get(filters, "page_limit"))
            + Optional(Truthy(Get(filters, "page_limit")), "per_page", Get(filters, "page_limit"))
            + Optional(Get(filters, "status").Arr? && |Get(filters, "status").items| > 0, "status[]", Get(filters, "status"))
            + Optional(HasIds(filters, "userIds", parse), "user_ids[]", IdsValue(filters, "userIds", parse))
            + Optional(HasIds(filters, "projectIds", parse), "project_ids[]", IdsValue(filters, "projectIds", parse))
            + Optional(HasIds(filters, "globalTodoIds", parse), "global_todo_ids[]", IdsValue(filters, "globalTodoIds", parse))
  {
    PagingQueryFields(filters);
    IdFiltersUnrolled(PagingQuery(filters), filters, parse);
    IdFieldsAppend(PagingFields(filters),
                   HasIds(filters, "userIds", parse), IdsValue(filters, "userIds", parse),
                   HasIds(filters, "projectIds", parse), IdsValue(filters, "projectIds", parse),
                   HasIds(filters, "globalTodoIds", parse), IdsValue(filters, "globalTodoIds", parse));
  }

  /** Setting the three id keys on a query that holds only paging and status keys appends
      each one that is set, in order. */
  lemma {:induction false} IdFieldsAppend(q: seq<(string, Value)>, c1: bool, v1: Value, c2: bool, v2: Value, c3: bool, v3: Value)
    requires forall k :: k in Keys(q) ==> k in ["page_start_id", "page_limit", "per_page", "status[]"]
    ensures var q1 := if c1 then SetField(q, "user_ids[]", v1) else q;
            var q2 := if c2 then SetField(q1, "project_ids[]", v2) else q1;
            var q3 := if c3 then SetField(q2, "global_todo_ids[]", v3) else q2;
            q3 == q + Optional(c1, "user_ids[]", v1) + Optional(c2, "project_ids[]", v2) + Optional(c3, "global_todo_ids[]", v3)
  {
    var k4 := ["page_start_id", "page_limit", "per_page", "status[]"];
    var o5 := q + Optional(c1, "user_ids[]", v1);
    var o6 := o5 + Optional(c2, "project_ids[]", v2);
    assert "user_ids[]" !in k4 by {
      assert "user_ids[]"[0] != "page_limit"[0];
    }
    PutAppends(q, c1, "user_ids[]", v1, k4);
    assert "project_ids[]" !in k4 + ["user_ids[]"] by {
      assert "project_ids[]"[1] != "page_start_id"[1];
    }
    PutAppends(o5, c2, "project_ids[]", v2, k4 + ["user_ids[]"]);
    assert "global_todo_ids[]" !in k4 + ["user_ids[]", "project_ids[]"] by {
      assert "global_todo_ids[]"[0] == 'g';
    }
    PutAppends(o6, c3, "global_todo_ids[]", v3, k4 + ["user_ids[]", "project_ids[]"]);
  }

  /** The loop over `listFilterMap`, written out: user ids, then project ids, then global
      to-do ids. */
  lemma {:induction false} IdFiltersUnrolled(q: seq<(string, Value)>, filters: Value, parse: JsonParser)
    ensures var q1 := if HasIds(filters, "userIds", parse) then SetField(q, "user_ids[]", IdsValue(filters, "userIds", parse)) else q;
            var q2 := if HasIds(filters, "projectIds", parse) then SetField(q1, "project_ids[]", IdsValue(filters, "projectIds", parse)) else q1;
            var q3 := if HasIds(filters, "globalTodoIds", parse) then SetField(q2, "global_todo_ids[]", IdsValue(filters, "globalTodoIds", parse)) else q2;
            AddIdFilters(q, filters, ListFilterMap, parse) == q3
  {
    var m := ListFilterMap;
    assert m[0] == ListFilter("userIds", "user_ids[]") && m[1..][0] == ListFilter("projectIds", "project_ids[]");
    assert m[2..][0] == ListFilter("globalTodoIds", "global_todo_ids[]");
    assert m[1..][1..] == m[2..] && m[2..][1..] == [];
  }

  /** The fields the paging and status filters contribute, in the order they are written. */
  function PagingFields(filters: Value): seq<(string, Value)> {
    var start := Get(filters, "page_start_id");
    var limit := Get(filters, "page_limit");
    var status := Get(filters, "status");
    Optional(Truthy(start), "page_start_id", start)
    + Optional(Truthy(limit), "page_limit", limit)
    + Optional(Truthy(limit), "per_page", limit)
    + Optional(status.Arr? && |status.items| > 0, "status[]", status)
  }

  lemma {:induction false} PagingQueryFields(filters: Value)
    ensures PagingQuery(filters) == PagingFields(filters)
    ensures forall k :: k in Keys(PagingFields(filters)) ==> k in ["page_start_id", "page_limit", "per_page", "status[]"]
  {
    var start := Get(filters, "page_start_id");
    var limit := Get(filters, "page_limit");
    var status := Get(filters, "status");
    PagingAppends(Truthy(start), start, Truthy(limit), limit, status.Arr? && |status.items| > 0, status);
  }

  /** Setting the paging and status keys on an empty query appends each one that is set, in
      order. */
  lemma {:induction false} PagingAppends(c1: bool, start: Value, c2: bool, limit: Value, c3: bool, status: Value)
    ensures var q1 := if c1 then SetField([], "page_start_id", start) else [];
            var q2 := if c2 then SetField(SetField(q1, "page_limit", limit), "per_page", limit) else q1;
            var q3 := if c3 then SetField(q2, "status[]", status) else q2;
            var o := Optional(c1, "page_start_id", start) + Optional(c2, "page_limit", limit)
                     + Optional(c2, "per_page", limit) + Optional(c3, "status[]", status);
            && q3 == o
            && forall k :: k in Keys(o) ==> k in ["page_start_id", "page_limit", "per_page", "status[]"]
  {
    var o1 := Optional(c1, "page_start_id", start);
    var o2 := o1 + Optional(c2, "page_limit", limit);
    var o3 := o2 + Optional(c2, "per_page", limit);
    PutAppends([], c1, "page_start_id", start, []);
    assert [] + o1 == o1;
    PutAppends(o1, c2, "page_limit", limit, ["page_start_id"]);
    PutAppends(o2, c2, "per_page", limit, ["page_start_id", "page_limit"]);
    assert "status[]" !in ["page_start_id", "page_limit", "per_page"] by {
      assert "status[]"[0] != "per_page"[0];
    }
    PutAppends(o3, c3, "status[]", status, ["page_start_id", "page_limit", "per_page"]);
  }

  /** The page size the paginator uses for the task list is `page_limit` when that filter is
      set, and 100 otherwise. */
  lemma {:induction false} TaskQueryPerPage(filters: Value, parse: JsonParser)
    ensures PerPage(TaskQuery(filters, parse)) ==
              if Truthy(Get(filters, "page_limit")) then ToNumber(Get(filters, "page_limit")) else Fin(100.0)
  {
    FilterKeys();
    IdFiltersKeep(PagingQuery(filters), filters, ListFilterMap, parse, "per_page");
    PagingPerPage(filters);
  }

  /** `per_page` of the paging part: `page_limit` when set, absent otherwise. */
  lemma {:induction false} PagingPerPage(filters: Value)
    ensures var limit := Get(filters, "page_limit");
            Lookup(PagingQuery(filters), "per_page") == if Truthy(limit) then limit else Undefined
  {
    var limit := Get(filters, "page_limit");
    var status := Get(filters, "status");
    var start := Get(filters, "page_start_id");
    assert "status[]" != "per_page" by { assert "status[]"[0] != "per_page"[0]; }
    var q1 := if Truthy(start) then SetField([], "page_start_id", start) else [];
    var q2 := if Truthy(limit) then SetField(SetField(q1, "page_limit", limit), "per_page", limit) else q1;
    SetFieldOthers(q2, "status[]", status, "per_page");
    if Truthy(limit) {
      SetFieldBinds(SetField(q1, "page_limit", limit), "per_page", limit);
    } else {
      assert Lookup(q1, "per_page") == Undefined;
    }
  }

  /** A non-empty status array is sent under `status[]`, and nothing is sent otherwise. */
  lemma {:induction false} TaskQueryStatus(filters: Value, parse: JsonParser)
    ensures var status := Get(filters, "status");
            Lookup(TaskQuery(filters, parse), "status[]") == if status.Arr? && |status.items| > 0 then status else Undefined
  {
    FilterKeys();
    IdFiltersKeep(PagingQuery(filters), filters, ListFilterMap, parse, "status[]");
    PagingStatus(filters);
  }

  /** `status[]` of the paging part: the status list when it is a non-empty array. */
  lemma {:induction false} PagingStatus(filters: Value)
    ensures var status := Get(filters, "status");
            Lookup(PagingQuery(filters), "status[]") == if status.Arr? && |status.items| > 0 then status else Undefined
  {
    var limit := Get(filters, "page_limit");
    var status := Get(filters, "status");
    var start := Get(filters, "page_start_id");
    var q1 := if Truthy(start) then SetField([], "page_start_id", start) else [];
    var q2 := if Truthy(limit) then SetField(SetField(q1, "page_limit", limit), "per_page", limit) else q1;
    if status.Arr? && |status.items| > 0 {
      assert PagingQuery(filters) == SetField(q2, "status[]", status);
      SetFieldBinds(q2, "status[]", status);
    } else {
      assert PagingQuery(filters) == q2;
      assert Lookup(q1, "status[]") == Undefined;
      if Truthy(limit) {
        SetFieldOthers(q1, "page_limit", limit, "status[]");
        SetFieldOthers(SetField(q1, "page_limit", limit), "per_page", limit, "status[]");
      }
    }
  }

  /** The id filters' keys differ from the paging keys. */
  lemma {:induction false} FilterKeys()
    ensures forall e :: e in ListFilterMap ==> e.key != "per_page" && e.key != "status[]"
  {
  }

  /** The id filters write only their own keys. */
  lemma {:induction false} IdFiltersKeep(q: seq<(string, Value)>, filters: Value, entries: seq<ListFilter>,
                                         parse: JsonParser, k: string)
    requires forall e :: e in entries ==> e.key != k
    ensures Lookup(AddIdFilters(q, filters, entries, parse), k) == Lookup(q, k)
    decreases |entries|
  {
    if |entries| > 0 {
      var values := ParseIdList(Get(filters, entries[0].field), parse);
      var q' := if |values| > 0 then SetField(q, entries[0].key, Arr(NumberValues(values))) else q;
      SetFieldOthers(q, entries[0].key, Arr(NumberValues(values)), k);
      assert forall e :: e in entries[1..] ==> e in entries;
      IdFiltersKeep(q', filters, entries[1..], parse, k);
    }
  }

  /** Setting a key that is not among `before` (which covers every key already present)
      appends its field; the new key list is covered by `before + [key]`. */
  lemma {:induction false} PutAppends(q: seq<(string, Value)>, cond: bool, key: string, v: Value, before: seq<string>)
    requires forall k :: k in Keys(q) ==> k in before
    requires key !in before
    ensures (if cond then SetField(q, key, v) else q) == q + Optional(cond, key, v)
    ensures forall k :: k in Keys(q + Optional(cond, key, v)) ==> k in before + [key]
  {
    SetFieldBinds(q, key, v);
    KeysAppend(q, Optional(cond, key, v));
  }

  lemma {:induction false} KeysAppend(a: seq<(string, Value)>, b: seq<(string, Value)>)
    ensures Keys(a + b) == Keys(a) + Keys(b)
  {
    if |a| > 0 {
      assert (a + b)[1..] == a[1..] + b;
      assert (a + b)[0] == a[0];
      KeysAppend(a[1..], b);
      assert Keys(a + b) == [a[0].0] + (Keys(a[1..]) + Keys(b));
    } else {
      assert a + b == b;
    }
  }

  // ---------------------------------------------------------------------------
  // The endpoint and the single-page query

  /** `/projects/{projectId}/tasks` when a project is given, else
      `/organizations/{organizationId}/tasks`, else an error. */
  function TaskEndpoint(projectId: string, organizationId: string): Result<string, string> {
    if projectId != "" then Success("/projects/" + projectId + "/tasks")
    else if organizationId != "" then Success("/organizations/" + organizationId + "/tasks")
    else Failure("Organization ID must be configured in credentials or Project ID must be provided for getting tasks")
  }

  /** The endpoint fails exactly when neither id is given; a project wins over the
      organization; the path is the collection, the chosen id and `/tasks`. */
  lemma {:induction false} TaskEndpointChoice(projectId: string, organizationId: string)
    ensures TaskEndpoint(projectId, organizationId).Failure? <==> projectId == "" && organizationId == ""
    ensures projectId != "" ==> TaskEndpoint(projectId, organizationId) == Success("/projects/" + projectId + "/tasks")
    ensures projectId == "" && organizationId != "" ==>
              TaskEndpoint(projectId, organizationId) == Success("/organizations/" + organizationId + "/tasks")
    ensures projectId != "" ==> TaskEndpoint(projectId, organizationId).value[10..|projectId| + 10] == projectId
    ensures projectId == "" && organizationId != "" ==>
              TaskEndpoint(projectId, organizationId).value[15..|organizationId| + 15] == organizationId
  {
  }

  /** `{ ...qsBase, per_page: limit }`, the query of a request that does not return all. */
  function SinglePageQuery(qsBase: seq<(string, Value)>, limit: Value): seq<(string, Value)> {
    SetField(qsBase, "per_page", limit)
  }

  /** The single-page query carries the limit as `per_page`, replacing a `per_page` copied
      from `page_limit` in place, and keeps every other filter. */
  lemma {:induction false} SinglePageQueryLimit(qsBase: seq<(string, Value)>, limit: Value)
    ensures Lookup(SinglePageQuery(qsBase, limit), "per_page") == limit
    ensures forall k :: k != "per_page" ==> Lookup(SinglePageQuery(qsBase, limit), k) == Lookup(qsBase, k)
    ensures HasKey(qsBase, "per_page") ==> Keys(SinglePageQuery(qsBase, limit)) == Keys(qsBase)
  {
    SetFieldBinds(qsBase, "per_page", limit);
    forall k | k != "per_page" ensures Lookup(SinglePageQuery(qsBase, limit), k) == Lookup(qsBase, k) {
      SetFieldOthers(qsBase, "per_page", limit, k);
    }
  }
}
