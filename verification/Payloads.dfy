/** `parse` and `to_wire` (crates/core/src/payload.rs) as inverses of each other: the text a producer sends is the
    JSON of its document, and what the plugin reads of it is the payload, cut and cleaned to the caps. */
module Payloads {
  import opened Prelude
  import opened Vocabulary
  import opened Utf8
  import opened Sanitizer
  import opened Tasks
  import opened Wire
  import opened Json

  const MAX_MSG_CHARS: nat := 60
  const MAX_TASK_CHARS: nat := 60
  const MAX_REPO_CHARS: nat := 40
  const MAX_BRANCH_CHARS: nat := 40
  const MAX_SOURCE_CHARS: nat := 16

  type Fields = seq<(string, Value)>

  // ----- the document a payload is sent as -----

  function LabelFields(t: TaskUpdate): Fields {
    if t.labelText == "" then [] else [("label", Text(t.labelText))]
  }

  function HoldsFields(t: TaskUpdate): Fields {
    if t.holds then [("holds", Bool(true))] else []
  }

  function ItemDocument(t: TaskUpdate): Value {
    Object([("id", Text(t.id)), ("state", Text(StateToken(t.state)))] + LabelFields(t) + HoldsFields(t))
  }

  function ItemDocuments(items: seq<TaskUpdate>): (r: seq<Value>)
    ensures |r| == |items| && forall k :: 0 <= k < |r| ==> r[k] == ItemDocument(items[k])
  {
    seq(|items|, k requires 0 <= k < |items| => ItemDocument(items[k]))
  }

  function TasksDocument(w: TaskBatch): Value {
    Object([("snapshot", Bool(w.snapshot)), ("items", List(ItemDocuments(w.items)))])
  }

  function PaneDocument(id: nat): Value {
    Object([("type", Text("terminal")), ("id", Number(id))])
  }

  function Capped(text: string): Value {
    Text(Take(text, MAX_WIRE_FIELD_CHARS))
  }

  function FirstFields(p: StatusPayload): Fields {
    [("v", Number(1)), ("source", Capped(p.source)), ("pane", PaneDocument(p.paneId)),
     ("status", Text(StatusToken(p.status))), ("repo", Capped(p.repo)), ("branch", Capped(p.branch)),
     ("msg", Capped(p.msg)), ("task", Capped(p.task))]
  }

  function AckFields(ack: bool): Fields {
    if ack then [("ack", Bool(true))] else []
  }

  function TasksFields(b: Option<TaskBatch>): Fields {
    if b.None? then [] else [("tasks", TasksDocument(WireBatch(b.value)))]
  }

  function DocumentFields(p: StatusPayload): Fields {
    FirstFields(p) + AckFields(p.ack) + TasksFields(p.tasks)
  }

  // ----- the wire text is that document, printed -----

  function FieldText(f: (string, Value)): string {
    Quoted(f.0) + ":" + Print(f.1)
  }

  /** The fields, each behind a comma. */
  function FieldsText(fields: Fields): string {
    if fields == [] then "" else "," + FieldText(fields[0]) + FieldsText(fields[1..])
  }

  lemma Assoc(a: string, b: string, c: string)
    ensures a + (b + c) == a + b + c
  {
  }

  lemma {:induction false} FieldsTextOfConcat(a: Fields, b: Fields)
    ensures FieldsText(a + b) == FieldsText(a) + FieldsText(b)
  {
    hide FieldText;
    if a == [] {
      assert a + b == b;
    } else {
      FieldsTextOfConcat(a[1..], b);
      assert (a + b)[0] == a[0] && (a + b)[1..] == a[1..] + b;
      Assoc("," + FieldText(a[0]), FieldsText(a[1..]), FieldsText(b));
    }
  }

  lemma {:induction false} PrintFieldsText(v: Value, k: nat)
    requires v.Object? && k <= |v.fields|
    ensures PrintFields(v, k) == FieldsText(v.fields[k..])
    decreases |v.fields| - k
  {
    if k < |v.fields| {
      PrintFieldsText(v, k + 1);
      assert v.fields[k..][1..] == v.fields[k + 1..];
    }
  }

  lemma ObjectPrints(first: (string, Value), more: Fields)
    ensures Print(Object([first] + more)) == "{" + FieldText(first) + FieldsText(more) + "}"
  {
    var v := Object([first] + more);
    PrintFieldsText(v, 1);
    assert v.fields[1..] == more;
  }

  predicate IsPlainKey(key: string) {
    forall k :: 0 <= k < |key| ==> 'a' <= key[k] <= 'z'
  }

  /** A field's text, with its key in quotes as `prefix`. */
  lemma KeyPrints(key: string, prefix: string, v: Value)
    requires IsPlainKey(key) && prefix == "\"" + key + "\":"
    ensures FieldText((key, v)) == prefix + Print(v)
  {
    hide Print;
    EscapedPlain(key);
    assert Quoted(key) + ":" == prefix;
  }

  lemma OneField(f: (string, Value))
    ensures FieldsText([f]) == "," + FieldText(f)
  {
    hide FieldText;
    assert [f][1..] == [];
    assert FieldsText([]) == "";
  }

  /** One field, behind its comma. */
  lemma FieldPrints(key: string, prefix: string, behind: string, v: Value)
    requires IsPlainKey(key) && prefix == "\"" + key + "\":" && behind == "," + prefix
    ensures FieldsText([(key, v)]) == behind + Print(v)
  {
    hide Print;
    OneField((key, v));
    KeyPrints(key, prefix, v);
    Assoc(",", prefix, Print(v));
  }

  // ----- an item -----

  lemma PrintsText(s: string)
    ensures Print(Text(s)) == Quoted(s)
  {
  }

  lemma IdPrints(t: TaskUpdate)
    ensures "{" + FieldText(("id", Text(t.id))) == IdJson(t)
  {
    hide Print, FieldText, Quoted;
    KeyPrints("id", "\"id\":", Text(t.id));
    PrintsText(t.id);
    Assoc("{", "\"id\":", Quoted(t.id));
    assert "{" + "\"id\":" == "{\"id\":";
  }

  lemma StatePrints(t: TaskUpdate)
    ensures FieldsText([("state", Text(StateToken(t.state)))]) == StateJson(t)
  {
    hide Print, FieldText, Quoted, StateToken, FieldsText;
    FieldPrints("state", "\"state\":", ",\"state\":", Text(StateToken(t.state)));
    PrintsText(StateToken(t.state));
  }

  lemma LabelPrints(t: TaskUpdate)
    ensures FieldsText(LabelFields(t)) == LabelJson(t)
  {
    hide Print, FieldText, Quoted;
    if t.labelText != "" {
      FieldPrints("label", "\"label\":", ",\"label\":", Text(t.labelText));
      PrintsText(t.labelText);
    }
  }

  lemma HoldsPrints(t: TaskUpdate)
    ensures FieldsText(HoldsFields(t)) + "}" == HoldsJson(t)
  {
    if t.holds {
      FieldPrints("holds", "\"holds\":", ",\"holds\":", Bool(true));
      assert ",\"holds\":" + "true" + "}" == ",\"holds\":true}";
    } else {
      assert FieldsText([]) + "}" == "}";
    }
  }

  /** An item's text is its document's. */
  lemma ItemPrints(t: TaskUpdate)
    ensures Print(ItemDocument(t)) == ItemJson(t)
  {
    hide Print, FieldText, FieldsText, Quoted;
    var id: (string, Value), state: (string, Value) := ("id", Text(t.id)), ("state", Text(StateToken(t.state)));
    assert ItemDocument(t) == Object([id] + ([state] + LabelFields(t) + HoldsFields(t)));
    ObjectPrints(id, [state] + LabelFields(t) + HoldsFields(t));
    FieldsTextOfConcat([state] + LabelFields(t), HoldsFields(t));
    FieldsTextOfConcat([state], LabelFields(t));
    IdPrints(t);
    StatePrints(t);
    LabelPrints(t);
    HoldsPrints(t);
    InFour("{" + FieldText(id), FieldsText([state]), FieldsText(LabelFields(t)), FieldsText(HoldsFields(t)));
  }

  lemma InFour(a: string, b: string, c: string, d: string)
    ensures a + (b + c + d) + "}" == a + b + c + (d + "}")
  {
  }

  // ----- the batch -----

  lemma {:induction false} ItemsPrint(items: seq<TaskUpdate>, k: nat)
    requires k < |items|
    ensures Print(ItemDocument(items[k])) + PrintItems(List(ItemDocuments(items)), k + 1)
         == Joined(ItemsJson(items)[k..])
    decreases |items| - k
  {
    hide Print, ItemJson;
    var v, parts := List(ItemDocuments(items)), ItemsJson(items)[k..];
    ItemPrints(items[k]);
    assert parts[0] == ItemJson(items[k]);
    if k + 1 < |items| {
      ItemsPrint(items, k + 1);
      assert parts[1..] == ItemsJson(items)[k + 1..];
      Assoc(",", Print(v.items[k + 1]), PrintItems(v, k + 2));
      Assoc(parts[0], ",", Joined(parts[1..]));
    } else {
      assert parts[1..] == [] && parts[0] + "" + "" == parts[0];
    }
  }

  lemma ListPrints(items: seq<TaskUpdate>)
    ensures Print(List(ItemDocuments(items))) == "[" + Joined(ItemsJson(items)) + "]"
  {
    if items == [] {
      assert ItemDocuments(items) == [] && ItemsJson(items) == [];
      assert "[" + "" + "]" == "[]";
    } else {
      ItemsPrint(items, 0);
      assert ItemsJson(items)[0..] == ItemsJson(items);
      ListOpens(List(ItemDocuments(items)));
    }
  }

  lemma ListOpens(v: Value)
    requires v.List? && v.items != []
    ensures Print(v) == "[" + (Print(v.items[0]) + PrintItems(v, 1)) + "]"
  {
  }

  lemma TasksPrint(b: TaskBatch)
    ensures FieldsText([("tasks", TasksDocument(b))]) + "}" == BatchJson(b)
  {
    hide Print, FieldText, FieldsText, Joined;
    var flag, items := Bool(b.snapshot), List(ItemDocuments(b.items));
    var list := Joined(ItemsJson(b.items));
    FieldPrints("tasks", "\"tasks\":", ",\"tasks\":", TasksDocument(b));
    assert TasksDocument(b) == Object([("snapshot", flag)] + [("items", items)]);
    ObjectPrints(("snapshot", flag), [("items", items)]);
    FieldPrints("items", "\"items\":", ",\"items\":", items);
    KeyPrints("snapshot", "\"snapshot\":", flag);
    ListPrints(b.items);
    FlagPrints(b.snapshot);
    TasksText(b.snapshot, list);
  }

  lemma FlagPrints(b: bool)
    ensures Print(Bool(b)) == if b then "true" else "false"
  {
  }

  lemma TasksText(snapshot: bool, list: string)
    ensures var flag := if snapshot then "true" else "false";
            ",\"tasks\":" + ("{" + ("\"snapshot\":" + flag) + (",\"items\":" + ("[" + list + "]")) + "}") + "}"
            == TasksOpening(snapshot) + list + TASKS_CLOSING
  {
    var flag := if snapshot then "true" else "false";
    OpeningText(snapshot);
    ClosingText();
    InBrackets(",\"tasks\":", "{", "\"snapshot\":" + flag, ",\"items\":", "[", list, "]", "}");
  }

  lemma OpeningText(snapshot: bool)
    ensures var flag := if snapshot then "true" else "false";
            ",\"tasks\":" + "{" + ("\"snapshot\":" + flag) + ",\"items\":" + "[" == TasksOpening(snapshot)
  {
  }

  lemma ClosingText()
    ensures "]" + "}" + "}" == TASKS_CLOSING
  {
  }

  lemma InBrackets(a: string, b: string, c: string, d: string, e: string, list: string, f: string, g: string)
    ensures a + (b + c + (d + (e + list + f)) + g) + g == (a + b + c + d + e) + list + (f + g + g)
  {
  }

  // ----- the whole text -----

  lemma CappedPrints(key: string, prefix: string, behind: string, text: string)
    requires IsPlainKey(key) && prefix == "\"" + key + "\":" && behind == "," + prefix
    ensures FieldsText([(key, Capped(text))]) == Field(behind, text)
  {
    hide Print, FieldText, FieldsText, Quoted;
    FieldPrints(key, prefix, behind, Capped(text));
    PrintsText(Take(text, MAX_WIRE_FIELD_CHARS));
  }

  lemma SourcePrints(source: string)
    ensures "{" + FieldText(("v", Number(1))) + FieldsText([("source", Capped(source))])
            == Field("{\"v\":1,\"source\":", source)
  {
    hide FieldText, FieldsText, Quoted;
    VersionPrints();
    CappedPrints("source", "\"source\":", ",\"source\":", source);
    var quoted := Quoted(Take(source, MAX_WIRE_FIELD_CHARS));
    Assoc("{\"v\":1", ",\"source\":", quoted);
    assert "{\"v\":1" + ",\"source\":" == "{\"v\":1,\"source\":";
  }

  lemma VersionPrints()
    ensures "{" + FieldText(("v", Number(1))) == "{\"v\":1"
  {
    KeyPrints("v", "\"v\":", Number(1));
    assert Digits(1) == "1";
    assert "{" + ("\"v\":" + "1") == "{\"v\":1";
  }

  lemma PanePrints(id: nat)
    ensures Print(PaneDocument(id)) == "{\"type\":\"terminal\",\"id\":" + Digits(id) + "}"
  {
    hide Print, FieldText, FieldsText, Quoted;
    var kind, number := ("type", Text("terminal")), ("id", Number(id));
    assert PaneDocument(id) == Object([kind] + [number]);
    ObjectPrints(kind, [number]);
    KeyPrints("type", "\"type\":", Text("terminal"));
    TerminalPrints();
    FieldPrints("id", "\"id\":", ",\"id\":", Number(id));
    NumberPrints(id);
    PaneText(Digits(id));
  }

  lemma NumberPrints(n: nat)
    ensures Print(Number(n)) == Digits(n)
  {
  }

  lemma TerminalPrints()
    ensures Print(Text("terminal")) == "\"terminal\""
  {
    hide Print, Quoted, EscapedAll;
    var kind := "terminal";
    QuotedPlain(kind);
    assert "\"" + "terminal" + "\"" == "\"terminal\"";
  }

  lemma QuotedPlain(s: string)
    requires IsPlainKey(s)
    ensures Print(Text(s)) == "\"" + s + "\""
  {
    EscapedPlain(s);
  }

  lemma PaneText(digits: string)
    ensures "{" + ("\"type\":" + "\"terminal\"") + (",\"id\":" + digits) + "}"
            == "{\"type\":\"terminal\",\"id\":" + digits + "}"
  {
    assert "{" + ("\"type\":" + "\"terminal\"") + ",\"id\":" == "{\"type\":\"terminal\",\"id\":";
  }

  lemma StatusPrints(s: Status)
    ensures FieldsText([("status", Text(StatusToken(s)))]) == ",\"status\":\"" + StatusToken(s) + "\""
  {
    hide FieldText, FieldsText, StatusToken;
    FieldPrints("status", "\"status\":", ",\"status\":", Text(StatusToken(s)));
    TokenIsPlain(s);
    EscapedPlain(StatusToken(s));
    StatusText(StatusToken(s));
  }

  lemma TokenIsPlain(s: Status)
    ensures IsPlainKey(StatusToken(s))
  {
  }

  lemma StatusText(token: string)
    ensures ",\"status\":" + ("\"" + token + "\"") == ",\"status\":\"" + token + "\""
  {
    assert ",\"status\":" + "\"" == ",\"status\":\"";
  }

  lemma PaneAndStatusPrint(p: StatusPayload)
    ensures FieldsText([("pane", PaneDocument(p.paneId))]) + FieldsText([("status", Text(StatusToken(p.status)))])
            == PaneAndStatus(p)
  {
    hide Print, FieldText, FieldsText, Digits, StatusToken;
    FieldPrints("pane", "\"pane\":", ",\"pane\":", PaneDocument(p.paneId));
    PanePrints(p.paneId);
    StatusPrints(p.status);
    PaneAndStatusText(Digits(p.paneId), StatusToken(p.status));
  }

  lemma PaneAndStatusText(digits: string, token: string)
    ensures ",\"pane\":" + ("{\"type\":\"terminal\",\"id\":" + digits + "}") + (",\"status\":\"" + token + "\"")
            == ",\"pane\":{\"type\":\"terminal\",\"id\":" + digits + "},\"status\":\"" + token + "\""
  {
    PaneOpening();
    assert "}" + ",\"status\":\"" == "},\"status\":\"";
  }

  lemma PaneOpening()
    ensures ",\"pane\":" + "{\"type\":\"terminal\",\"id\":" == ",\"pane\":{\"type\":\"terminal\",\"id\":"
  {
  }

  lemma AckPrints(ack: bool)
    ensures FieldsText(AckFields(ack)) == if ack then ",\"ack\":true" else ""
  {
    if ack {
      FieldPrints("ack", "\"ack\":", ",\"ack\":", Bool(true));
      assert ",\"ack\":" + "true" == ",\"ack\":true";
    }
  }

  lemma TasksFieldsPrint(b: Option<TaskBatch>)
    ensures FieldsText(TasksFields(b)) + "}" == TasksJson(b)
  {
    if b.Some? {
      TasksPrint(WireBatch(b.value));
    } else {
      assert FieldsText([]) + "}" == "}";
    }
  }

  /** The fields of a document, by name. */
  function FieldAt(p: StatusPayload, k: nat): (string, Value)
    requires k < 8
  {
    FirstFields(p)[k]
  }

  lemma FirstFieldsPrint(p: StatusPayload)
    ensures "{" + FieldText(FieldAt(p, 0)) + FieldsText(FirstFields(p)[1..])
            == Field("{\"v\":1,\"source\":", p.source) + PaneAndStatus(p) + Field(",\"repo\":", p.repo)
               + Field(",\"branch\":", p.branch) + Field(",\"msg\":", p.msg) + Field(",\"task\":", p.task)
  {
    hide Print, FieldText, FieldsText, Field, PaneAndStatus, StatusToken;
    var f := FirstFields(p);
    assert f[1..] == [f[1]] + [f[2]] + [f[3]] + [f[4]] + [f[5]] + [f[6]] + [f[7]];
    SevenFields(f[1], f[2], f[3], f[4], f[5], f[6], f[7]);
    SourcePrints(p.source);
    PaneAndStatusPrint(p);
    CappedPrints("repo", "\"repo\":", ",\"repo\":", p.repo);
    CappedPrints("branch", "\"branch\":", ",\"branch\":", p.branch);
    CappedPrints("msg", "\"msg\":", ",\"msg\":", p.msg);
    CappedPrints("task", "\"task\":", ",\"task\":", p.task);
    InEight("{" + FieldText(f[0]), FieldsText([f[1]]), FieldsText([f[2]]), FieldsText([f[3]]), FieldsText([f[4]]),
            FieldsText([f[5]]), FieldsText([f[6]]), FieldsText([f[7]]));
  }

  lemma SevenFields(a: (string, Value), b: (string, Value), c: (string, Value), d: (string, Value), e: (string, Value),
                    f: (string, Value), g: (string, Value))
    ensures FieldsText([a] + [b] + [c] + [d] + [e] + [f] + [g])
            == FieldsText([a]) + FieldsText([b]) + FieldsText([c]) + FieldsText([d]) + FieldsText([e]) + FieldsText([f])
               + FieldsText([g])
  {
    hide FieldText, FieldsText;
    FieldsTextOfConcat([a], [b]);
    FieldsTextOfConcat([a] + [b], [c]);
    FieldsTextOfConcat([a] + [b] + [c], [d]);
    FieldsTextOfConcat([a] + [b] + [c] + [d], [e]);
    FieldsTextOfConcat([a] + [b] + [c] + [d] + [e], [f]);
    FieldsTextOfConcat([a] + [b] + [c] + [d] + [e] + [f], [g]);
  }

  lemma InEight(a: string, b: string, c: string, d: string, e: string, f: string, g: string, h: string)
    ensures a + (b + c + d + e + f + g + h) == (a + b) + (c + d) + e + f + g + h
  {
  }

  /** The wire text of a payload is its document, printed: fields in order, texts cut, absent ones absent. */
  lemma ToWireIsPrinted(p: StatusPayload)
    ensures ToWire(p) == Print(Object(DocumentFields(p)))
  {
    hide Print, FieldText, FieldsText, Field, PaneAndStatus, TasksJson, Quoted;
    var first, more := FirstFields(p), AckFields(p.ack) + TasksFields(p.tasks);
    var head := FieldAt(p, 0);
    assert DocumentFields(p) == [head] + (first[1..] + more);
    ObjectPrints(head, first[1..] + more);
    FieldsTextOfConcat(first[1..], more);
    FieldsTextOfConcat(AckFields(p.ack), TasksFields(p.tasks));
    FirstFieldsPrint(p);
    AckPrints(p.ack);
    TasksFieldsPrint(p.tasks);
    InFour2("{" + FieldText(head), FieldsText(first[1..]), FieldsText(AckFields(p.ack)),
            FieldsText(TasksFields(p.tasks)));
  }

  lemma InFour2(a: string, b: string, c: string, d: string)
    ensures a + (b + (c + d)) + "}" == (a + b) + c + (d + "}")
  {
  }

  // ----- what the plugin reads -----

  /** A field of a document: not there, there once, or there again - which a struct does not take. */
  datatype Found = Absent | Once(v: Value) | Again

  function Find(fields: Fields, key: string): Found {
    if fields == [] then Absent
    else
      var more := Find(fields[1..], key);
      if fields[0].0 != key then more else if more.Absent? then Once(fields[0].1) else Again
  }

  /** In a plain object the last one counts. */
  function Last(fields: Fields, key: string): Option<Value>
    decreases |fields|
  {
    if fields == [] then None
    else
      var n := |fields| - 1;
      if fields[n].0 == key then Some(fields[n].1) else Last(fields[..n], key)
  }

  /** The fields of a struct: an object's, or an array's by position, as far as it goes. */
  function FieldsOf(v: Value, names: seq<string>): Option<Fields> {
    match v
    case Object(fields) => Some(fields)
    case List(items) =>
      if |items| > |names| then None
      else Some(seq(|items|, k requires 0 <= k < |items| => (names[k], items[k])))
    case _ => None
  }

  const PANE_FIELDS: seq<string> := ["type", "id"]
  const ITEM_FIELDS: seq<string> := ["id", "state", "label", "holds"]
  const PAYLOAD_FIELDS: seq<string> :=
    ["pane", "status", "repo", "branch", "msg", "task", "source", "ack", "tasks"]

  /** An optional text: empty when absent, and nothing else will do. */
  function TextOf(f: Found): Option<string> {
    match f
    case Absent => Some("")
    case Once(Text(s)) => Some(s)
    case _ => None
  }

  function FlagOf(f: Found): Option<bool> {
    match f
    case Absent => Some(false)
    case Once(Bool(b)) => Some(b)
    case _ => None
  }

  /** The pane's id, if it is a terminal's and fits thirty-two bits. */
  function PaneOf(f: Found): Option<nat> {
    match f
    case Once(v) =>
      (match FieldsOf(v, PANE_FIELDS)
       case Some(fields) =>
         (match (Find(fields, "type"), Find(fields, "id"))
          case (Once(Text(kind)), Once(Number(id))) =>
            if kind == "terminal" && id < 0x1_0000_0000 then Some(id) else None
          case _ => None)
       case None => None)
    case _ => None
  }

  function StateFromWire(token: string): Option<TaskState> {
    if token == "running" then Some(TaskState.Running)
    else if token == "completed" then Some(TaskState.Completed)
    else if token == "failed" then Some(TaskState.Failed)
    else if token == "killed" then Some(TaskState.Killed)
    else if token == "ended" then Some(TaskState.Ended)
    else None
  }

  /** One element of `items`: a task when every field is as it should be. */
  function ItemOf(v: Value): RawTask {
    var named := FieldsOf(v, ITEM_FIELDS);
    if named.None? then Malformed("")
    else
      var fields := named.value;
      var (id, state) := (Last(fields, "id"), Last(fields, "state"));
      var (text, holds) := (Last(fields, "label"), Last(fields, "holds"));
      if id.None? || !id.value.Text? then Malformed("")
      else if state.None? || !state.value.Text? || StateFromWire(state.value.s).None? then Malformed(id.value.s)
      else if (text.Some? && !text.value.Text?) || (holds.Some? && !holds.value.Bool?) then Malformed(id.value.s)
      else
        Raw(TaskUpdate(id.value.s, StateFromWire(state.value.s).value, if text.Some? then text.value.s else "",
                       holds.Some? && holds.value.b))
  }

  function ItemsOf(items: seq<Value>): (r: seq<RawTask>)
    ensures |r| == |items| && forall k :: 0 <= k < |r| ==> r[k] == ItemOf(items[k])
  {
    seq(|items|, k requires 0 <= k < |items| => ItemOf(items[k]))
  }

  /** The lenient half: what is no object is absent, and what is amiss in one is left out. */
  function TasksOf(f: Found): Option<Option<TaskBatch>> {
    match f
    case Absent => Some(None)
    case Again => None
    case Once(v) =>
      if !v.Object? then Some(None)
      else
        var items := Last(v.fields, "items");
        Some(Some(ParseTasks(if items.Some? && items.value.List? then ItemsOf(items.value.items) else [],
                             Last(v.fields, "snapshot") == Some(Bool(true)))))
  }

  function ReadDocument(fields: Fields): Option<StatusPayload> {
    var (pane, status) := (PaneOf(Find(fields, "pane")), Find(fields, "status"));
    var (repo, branch) := (TextOf(Find(fields, "repo")), TextOf(Find(fields, "branch")));
    var (msg, task) := (TextOf(Find(fields, "msg")), TextOf(Find(fields, "task")));
    var (source, ack) := (TextOf(Find(fields, "source")), FlagOf(Find(fields, "ack")));
    var tasks := TasksOf(Find(fields, "tasks"));
    if pane.None? || !status.Once? || !status.v.Text? || repo.None? || branch.None? || msg.None? || task.None?
       || source.None? || ack.None? || tasks.None?
    then None
    else
      Some(StatusPayload(pane.value, StatusFromWire(status.v.s), Sanitize(repo.value, MAX_REPO_CHARS),
                         Sanitize(branch.value, MAX_BRANCH_CHARS), Sanitize(msg.value, MAX_MSG_CHARS),
                         Sanitize(task.value, MAX_TASK_CHARS), Sanitize(source.value, MAX_SOURCE_CHARS), ack.value,
                         tasks.value))
  }

  /** `parse`: nothing of a text over the limit, of one that is no struct in JSON, or of one without a pane and a
      status. */
  function ParsePayload(raw: string): Option<StatusPayload> {
    if |EncodeAll(raw)| > MAX_PAYLOAD_BYTES then None
    else
      var v := Parse(raw);
      var named := if v.Some? then FieldsOf(v.value, PAYLOAD_FIELDS) else None;
      if named.Some? then ReadDocument(named.value) else None
  }

  // ----- what is read of a document that did not come from `to_wire` -----

  /** Past 65536 bytes nothing is read; short of that every JSON text is taken by its fields. */
  lemma LongTextIsRefused(raw: string, fields: Fields)
    ensures |EncodeAll(raw)| > 65536 ==> ParsePayload(raw) == None
    ensures raw == Print(Object(fields)) && |EncodeAll(raw)| <= 65536 ==> ParsePayload(raw) == ReadDocument(fields)
  {
    hide ReadDocument, Print, Parse;
    ParseOfPrint(Object(fields));
  }

  /** A payload is of a terminal pane, by an id of thirty-two bits, and has a status: without either nothing is read. */
  lemma PaneAndStatusAreNeeded(fields: Fields)
    requires ReadDocument(fields).Some?
    ensures var p := ReadDocument(fields).value;
            exists pane, kind, status, token ::
              && ("pane", pane) in fields && ("status", status) in fields
              && FieldsOf(pane, ["type", "id"]).Some?
              && kind in FieldsOf(pane, ["type", "id"]).value && kind == ("type", Text("terminal"))
              && ("id", Number(p.paneId)) in FieldsOf(pane, ["type", "id"]).value && p.paneId < 4294967296
              && status == Text(token) && p.status == StatusFromWire(token)
  {
    var pane, status := Find(fields, "pane"), Find(fields, "status");
    FoundIsThere(fields, "pane");
    FoundIsThere(fields, "status");
    var inside := FieldsOf(pane.v, PANE_FIELDS).value;
    FoundIsThere(inside, "type");
    FoundIsThere(inside, "id");
    assert ("type", Text("terminal")) in inside;
    assert status.v == Text(status.v.s);
  }

  lemma {:induction false} FoundIsThere(fields: Fields, key: string)
    ensures Find(fields, key).Once? ==> (key, Find(fields, key).v) in fields
  {
    if fields != [] {
      FoundIsThere(fields[1..], key);
    }
  }

  /** What is absent is empty, off, or no task list at all. */
  lemma PaneAndStatusAreEnough(pane: Value, id: nat, token: string)
    requires PaneOf(Once(pane)) == Some(id)
    ensures ReadDocument([("pane", pane), ("status", Text(token))])
            == Some(StatusPayload(id, StatusFromWire(token), "", "", "", "", "", false, None))
    ensures ReadDocument([("pane", pane)]) == None && ReadDocument([("status", Text(token))]) == None
  {
    var both: Fields := [("pane", pane), ("status", Text(token))];
    FoundOnce(both, 0);
    FoundOnce(both, 1);
    NotFound([("pane", pane)], "status");
    NotFound([("status", Text(token))], "pane");
    assert forall key | key !in {"pane", "status"} :: Find(both, key).Absent? by {
      forall key | key !in {"pane", "status"} ensures Find(both, key).Absent? {
        NotFound(both, key);
      }
    }
    CleanTextSurvives("");
  }

  /** A field of any other name changes nothing, wherever it stands and whatever is in it - a version, too. */
  lemma UnknownFieldsAreIgnored(a: Fields, b: Fields, field: (string, Value))
    requires field.0 !in PAYLOAD_FIELDS
    ensures ReadDocument(a + [field] + b) == ReadDocument(a + b)
  {
    hide Find;
    forall key | key in PAYLOAD_FIELDS ensures Find(a + [field] + b, key) == Find(a + b, key) {
      FindPasses(a, field, b, key);
    }
    assert forall k :: 0 <= k < 9 ==> PAYLOAD_FIELDS[k] in PAYLOAD_FIELDS;
    assert PAYLOAD_FIELDS[0] == "pane" && PAYLOAD_FIELDS[1] == "status" && PAYLOAD_FIELDS[2] == "repo";
    assert PAYLOAD_FIELDS[3] == "branch" && PAYLOAD_FIELDS[4] == "msg" && PAYLOAD_FIELDS[5] == "task";
    assert PAYLOAD_FIELDS[6] == "source" && PAYLOAD_FIELDS[7] == "ack" && PAYLOAD_FIELDS[8] == "tasks";
  }

  lemma {:induction false} FindPasses(a: Fields, field: (string, Value), b: Fields, key: string)
    requires field.0 != key
    ensures Find(a + [field] + b, key) == Find(a + b, key)
  {
    if a == [] {
      assert a + [field] + b == [field] + b && a + b == b;
    } else {
      assert (a + [field] + b)[1..] == a[1..] + [field] + b && (a + b)[1..] == a[1..] + b;
      FindPasses(a[1..], field, b, key);
    }
  }

  /** A known field twice is too often. */
  lemma TwiceIsRefused(a: Fields, b: Fields, c: Fields, key: string, v: Value, w: Value)
    requires key in {"pane", "status", "repo", "branch", "msg", "task", "source", "ack", "tasks"}
    ensures ReadDocument(a + [(key, v)] + b + [(key, w)] + c) == None
  {
    var front, back := a + [(key, v)] + b, [(key, w)] + c;
    assert a + [(key, v)] + b + [(key, w)] + c == a + ([(key, v)] + (b + back));
    FindAtLeast(b, back, key);
    assert ([(key, v)] + (b + back))[1..] == b + back;
    FindAtLeast(a, [(key, v)] + (b + back), key);
  }

  lemma {:induction false} FindAtLeast(a: Fields, b: Fields, key: string)
    ensures !Find(b, key).Absent? ==> !Find(a + b, key).Absent?
    ensures Find(b, key).Again? ==> Find(a + b, key).Again?
  {
    if a == [] {
      assert a + b == b;
    } else {
      assert (a + b)[1..] == a[1..] + b;
      FindAtLeast(a[1..], b, key);
    }
  }

  /** A task needs an id and one of the five states; its label and its hold may be absent. */
  lemma TaskItemIs(id: string, token: string)
    ensures ItemOf(Object([("id", Text(id)), ("state", Text(token))])) ==
              if token in {"running", "completed", "failed", "killed", "ended"}
              then Raw(TaskUpdate(id, StateFromWire(token).value, "", false)) else Malformed(id)
    ensures ItemOf(Object([("id", Text(id))])) == Malformed(id)
    ensures ItemOf(Object([("state", Text(token))])) == Malformed("")
  {
    var both: Fields := [("id", Text(id)), ("state", Text(token))];
    LastIs(both, 0);
    LastIs(both, 1);
    LastIsNone(both, "label");
    LastIsNone(both, "holds");
    LastIsNone([("id", Text(id))], "state");
    LastIsNone([("state", Text(token))], "id");
  }

  /** The task list is lenient: what is no object is no list, and an object without items is an empty one. */
  lemma TaskListIsLenient(v: Value, flag: Value)
    ensures !v.Object? ==> TasksOf(Once(v)) == Some(None)
    ensures TasksOf(Once(Object([("snapshot", flag)]))) == Some(Some(TaskBatch([], flag == Bool(true))))
  {
    var fields: Fields := [("snapshot", flag)];
    LastIs(fields, 0);
    LastIsNone(fields, "items");
  }

  // ----- the round trip -----

  lemma {:induction false} FindIn(a: Fields, b: Fields, key: string)
    requires forall k :: 0 <= k < |a| ==> a[k].0 != key
    ensures Find(a + b, key) == Find(b, key)
  {
    if a == [] {
      assert a + b == b;
    } else {
      assert (a + b)[1..] == a[1..] + b;
      FindIn(a[1..], b, key);
    }
  }

  lemma {:induction false} NotFound(a: Fields, key: string)
    requires forall k :: 0 <= k < |a| ==> a[k].0 != key
    ensures Find(a, key).Absent?
  {
    if a != [] {
      NotFound(a[1..], key);
    }
  }

  /** A key that is there at one place only is found there. */
  lemma FoundOnce(fields: Fields, k: nat)
    requires k < |fields| && forall j :: 0 <= j < |fields| && j != k ==> fields[j].0 != fields[k].0
    ensures Find(fields, fields[k].0) == Once(fields[k].1)
  {
    var a, b := fields[..k], fields[k..];
    assert a + b == fields && b[0] == fields[k];
    FindIn(a, b, fields[k].0);
    NotFound(b[1..], fields[k].0);
  }

  lemma {:induction false} LastIs(fields: Fields, k: nat)
    requires k < |fields| && forall j :: k < j < |fields| ==> fields[j].0 != fields[k].0
    ensures Last(fields, fields[k].0) == Some(fields[k].1)
    decreases |fields|
  {
    if k < |fields| - 1 {
      LastIs(fields[..|fields| - 1], k);
    }
  }

  lemma {:induction false} LastIsNone(fields: Fields, key: string)
    requires forall j :: 0 <= j < |fields| ==> fields[j].0 != key
    ensures Last(fields, key).None?
    decreases |fields|
  {
    if fields != [] {
      LastIsNone(fields[..|fields| - 1], key);
    }
  }

  lemma StateTokensRoundTrip(s: TaskState, token: string)
    ensures StateFromWire(StateToken(s)) == Some(s)
    ensures StateFromWire(token).Some? ==> StateToken(StateFromWire(token).value) == token
  {
  }

  lemma ItemIsRead(t: TaskUpdate)
    ensures ItemOf(ItemDocument(t)) == Raw(t)
  {
    ItemFieldsAreRead(t);
    StateTokensRoundTrip(t.state, "");
  }

  lemma ItemFieldsAreRead(t: TaskUpdate)
    ensures var f := ItemDocument(t).fields;
            && Last(f, "id") == Some(Text(t.id)) && Last(f, "state") == Some(Text(StateToken(t.state)))
            && Last(f, "label") == (if t.labelText == "" then None else Some(Text(t.labelText)))
            && Last(f, "holds") == (if t.holds then Some(Bool(true)) else None)
  {
    hide StateToken, Last;
    var f := ItemDocument(t).fields;
    LastIs(f, 0);
    LastIs(f, 1);
    if t.labelText == "" {
      LastIsNone(f, "label");
    } else {
      LastIs(f, 2);
    }
    if t.holds {
      LastIs(f, |f| - 1);
    } else {
      LastIsNone(f, "holds");
    }
  }

  lemma ItemsAreRead(items: seq<TaskUpdate>)
    ensures ItemsOf(ItemDocuments(items)) == AsRaw(items)
  {
    forall k | 0 <= k < |items| ensures ItemsOf(ItemDocuments(items))[k] == AsRaw(items)[k] {
      ItemIsRead(items[k]);
    }
  }

  lemma TasksAreRead(b: TaskBatch)
    ensures TasksOf(Once(TasksDocument(WireBatch(b)))) == Some(Some(Received(b)))
  {
    var w := WireBatch(b);
    var fields := TasksDocument(w).fields;
    LastIs(fields, 0);
    LastIs(fields, 1);
    ItemsAreRead(w.items);
  }

  lemma PaneIsRead(id: nat)
    requires id < 0x1_0000_0000
    ensures PaneOf(Once(PaneDocument(id))) == Some(id)
  {
    FoundOnce(PaneDocument(id).fields, 0);
    FoundOnce(PaneDocument(id).fields, 1);
  }

  /** The keys of a document, each there once. */
  function Keys(p: StatusPayload): seq<string> {
    ["v", "source", "pane", "status", "repo", "branch", "msg", "task"]
    + (if p.ack then ["ack"] else []) + (if p.tasks.Some? then ["tasks"] else [])
  }

  lemma KeysAre(p: StatusPayload)
    ensures var f := DocumentFields(p);
            |f| == |Keys(p)| && forall k :: 0 <= k < |f| ==> f[k].0 == Keys(p)[k]
  {
    hide StatusToken, Capped, PaneDocument;
    FirstKeys(p);
  }

  lemma FirstKeys(p: StatusPayload)
    ensures forall k :: 0 <= k < 8 ==>
              FirstFields(p)[k].0 == ["v", "source", "pane", "status", "repo", "branch", "msg", "task"][k]
  {
  }

  lemma KeysAreDistinct(p: StatusPayload)
    ensures forall j, k :: 0 <= j < k < |Keys(p)| ==> Keys(p)[j] != Keys(p)[k]
  {
  }

  lemma FieldIsFound(p: StatusPayload, k: nat)
    requires k < |DocumentFields(p)|
    ensures Find(DocumentFields(p), DocumentFields(p)[k].0) == Once(DocumentFields(p)[k].1)
  {
    KeysAre(p);
    KeysAreDistinct(p);
    FoundOnce(DocumentFields(p), k);
  }

  lemma FieldIsAbsent(p: StatusPayload, key: string)
    requires key !in Keys(p)
    ensures Find(DocumentFields(p), key).Absent?
  {
    KeysAre(p);
    forall k | 0 <= k < |DocumentFields(p)| ensures DocumentFields(p)[k].0 != key {
      assert Keys(p)[k] in Keys(p);
    }
    NotFound(DocumentFields(p), key);
  }

  lemma AckIsFound(p: StatusPayload)
    ensures Find(DocumentFields(p), "ack") == if p.ack then Once(Bool(true)) else Absent
  {
    if p.ack {
      FieldIsFound(p, 8);
      assert DocumentFields(p)[8] == ("ack", Bool(true));
    } else {
      AckIsNoKey(p);
      FieldIsAbsent(p, "ack");
    }
  }

  lemma AckIsNoKey(p: StatusPayload)
    ensures !p.ack ==> "ack" !in Keys(p)
    ensures p.tasks.None? ==> "tasks" !in Keys(p)
  {
  }

  lemma TasksAreFound(p: StatusPayload)
    ensures Find(DocumentFields(p), "tasks")
            == if p.tasks.Some? then Once(TasksDocument(WireBatch(p.tasks.value))) else Absent
  {
    var f := DocumentFields(p);
    if p.tasks.Some? {
      FieldIsFound(p, |f| - 1);
      assert f[|f| - 1] == ("tasks", TasksDocument(WireBatch(p.tasks.value)));
    } else {
      AckIsNoKey(p);
      FieldIsAbsent(p, "tasks");
    }
  }

  lemma FirstAreFound(p: StatusPayload)
    ensures var f := DocumentFields(p);
            && Find(f, "source") == Once(Capped(p.source)) && Find(f, "pane") == Once(PaneDocument(p.paneId))
            && Find(f, "status") == Once(Text(StatusToken(p.status))) && Find(f, "repo") == Once(Capped(p.repo))
            && Find(f, "branch") == Once(Capped(p.branch)) && Find(f, "msg") == Once(Capped(p.msg))
            && Find(f, "task") == Once(Capped(p.task))
  {
    hide Find, StatusToken, Capped, PaneDocument, AckFields, TasksFields;
    var f := DocumentFields(p);
    assert |f| >= 8 && forall k :: 0 <= k < 8 ==> f[k] == FirstFields(p)[k];
    forall k | 1 <= k < 8 ensures Find(f, f[k].0) == Once(f[k].1) {
      FieldIsFound(p, k);
    }
    assert f[1].0 == "source" && f[2].0 == "pane" && f[3].0 == "status" && f[4].0 == "repo" && f[5].0 == "branch";
    assert f[6].0 == "msg" && f[7].0 == "task";
  }

  /** What arrives: texts cut where they are sent and cleaned and cut where they are read, the tasks as the plugin
      reads them, the rest as it was. */
  function Delivered(p: StatusPayload): StatusPayload {
    var sent := (text: string, cap: nat) => Sanitize(Take(text, 512), cap);
    StatusPayload(p.paneId, p.status, sent(p.repo, 40), sent(p.branch, 40), sent(p.msg, 60), sent(p.task, 60),
                  sent(p.source, 16), p.ack, if p.tasks.None? then None else Some(Received(p.tasks.value)))
  }

  lemma DocumentIsRead(p: StatusPayload)
    requires p.paneId < 0x1_0000_0000
    ensures ReadDocument(DocumentFields(p)) == Some(Delivered(p))
  {
    hide Find, DocumentFields, Received, StatusToken, TasksDocument, PaneDocument, Sanitize;
    FirstAreFound(p);
    AckIsFound(p);
    TasksAreFound(p);
    PaneIsRead(p.paneId);
    StatusTokensRoundTrip(p.status, "");
    if p.tasks.Some? {
      TasksAreRead(p.tasks.value);
    }
  }

  /** `to_wire` and `parse` are inverse, for every payload: what is sent is read, whatever is in it. */
  lemma PayloadRoundTrips(p: StatusPayload)
    requires p.paneId < 0x1_0000_0000
    ensures ParsePayload(ToWire(p)) == Some(Delivered(p))
  {
    hide ReadDocument, Print, ToWire, DocumentFields, Delivered;
    ToWireFits(p);
    ToWireIsPrinted(p);
    ParseOfPrint(Object(DocumentFields(p)));
    DocumentIsRead(p);
  }

  predicate FitsClean(text: string, cap: nat) {
    AllKept(text) && |text| <= cap
  }

  /** Clean and within the caps, and of sixteen tasks at most, each with an id. */
  predicate IsPresentable(p: StatusPayload) {
    && FitsClean(p.repo, 40) && FitsClean(p.branch, 40) && FitsClean(p.msg, 60) && FitsClean(p.task, 60)
    && FitsClean(p.source, 16)
    && (p.tasks.Some? ==>
          && |p.tasks.value.items| <= 16
          && forall k :: 0 <= k < |p.tasks.value.items| ==>
               var t := p.tasks.value.items[k];
               t.id != "" && FitsClean(t.id, 32) && FitsClean(t.labelText, 64))
  }

  lemma {:induction false} AllItemsParse(items: seq<TaskUpdate>)
    requires forall k :: 0 <= k < |items| ==> ParsedItem(Raw(items[k])) == Some(items[k])
    ensures ParsedItems(AsRaw(items)) == items
  {
    if items != [] {
      assert AsRaw(items)[1..] == AsRaw(items[1..]);
      AllItemsParse(items[1..]);
      assert [items[0]] + items[1..] == items;
    }
  }

  lemma PresentableTasksArrive(b: TaskBatch)
    requires |b.items| <= 16
    requires forall k :: 0 <= k < |b.items| ==>
               b.items[k].id != "" && FitsClean(b.items[k].id, 32) && FitsClean(b.items[k].labelText, 64)
    ensures Received(b) == b
  {
    assert WireBatch(b).items == b.items;
    forall k | 0 <= k < |b.items| ensures ParsedItem(Raw(b.items[k])) == Some(b.items[k]) {
      FixpointsAreTheCleanStrings(b.items[k].id, 32);
      FixpointsAreTheCleanStrings(b.items[k].labelText, 64);
    }
    AllItemsParse(b.items);
  }

  /** A presentable payload arrives exactly as it was sent. */
  lemma PresentableArrivesUnchanged(p: StatusPayload)
    requires p.paneId < 0x1_0000_0000 && IsPresentable(p)
    ensures ParsePayload(ToWire(p)) == Some(p)
  {
    hide ParsePayload, ToWire;
    PayloadRoundTrips(p);
    FixpointsAreTheCleanStrings(p.repo, 40);
    FixpointsAreTheCleanStrings(p.branch, 40);
    FixpointsAreTheCleanStrings(p.msg, 60);
    FixpointsAreTheCleanStrings(p.task, 60);
    FixpointsAreTheCleanStrings(p.source, 16);
    if p.tasks.Some? {
      PresentableTasksArrive(p.tasks.value);
    }
  }

  /** Every text that arrives is clean and within its cap. */
  lemma DeliveredIsClean(p: StatusPayload)
    ensures var d := Delivered(p);
            && FitsClean(d.repo, 40) && FitsClean(d.branch, 40) && FitsClean(d.msg, 60) && FitsClean(d.task, 60)
            && FitsClean(d.source, 16)
  {
    SanitizedIsClean(Take(p.repo, 512), 40);
    SanitizedIsClean(Take(p.branch, 512), 40);
    SanitizedIsClean(Take(p.msg, 512), 60);
    SanitizedIsClean(Take(p.task, 512), 60);
    SanitizedIsClean(Take(p.source, 512), 16);
  }

  // ----- the text on the wire, as a producer and a plugin of another version see it -----

  /** Text that needs no escape. */
  predicate IsPlain(s: string) {
    forall k :: 0 <= k < |s| ==> s[k] >= ' ' && s[k] != '\"' && s[k] != '\\'
  }

  lemma {:induction false} PlainStays(s: string)
    requires IsPlain(s)
    ensures EscapedAll(s) == s
  {
    if s != [] {
      PlainStays(s[1..]);
    }
  }

  lemma PlainField(key: string, text: string)
    requires IsPlain(text) && |text| <= 512
    ensures Field(key, text) == key + "\"" + text + "\""
  {
    PlainStays(text);
  }

  const SENT_ITEM := TaskUpdate("b1", TaskState.Running, "Run tests", true)
  const SENT := StatusPayload(12, Status.Running, "pinky", "fix/x", "running tests", "fix flaky e2e", "claude", true,
                              Some(TaskBatch([SENT_ITEM], true)))

  lemma SentNames()
    ensures Field("{\"v\":1,\"source\":", SENT.source) == "{\"v\":1,\"source\":\"claude\""
    ensures Field(",\"repo\":", SENT.repo) == ",\"repo\":\"pinky\""
    ensures Field(",\"branch\":", SENT.branch) == ",\"branch\":\"fix/x\""
  {
    hide Field;
    PlainField("{\"v\":1,\"source\":", SENT.source);
    PlainField(",\"repo\":", SENT.repo);
    PlainField(",\"branch\":", SENT.branch);
  }

  lemma SentTexts()
    ensures Field(",\"msg\":", SENT.msg) == ",\"msg\":\"running tests\""
    ensures Field(",\"task\":", SENT.task) == ",\"task\":\"fix flaky e2e\""
  {
    hide Field;
    PlainField(",\"msg\":", SENT.msg);
    PlainField(",\"task\":", SENT.task);
  }

  lemma SentPane()
    ensures PaneAndStatus(SENT) == ",\"pane\":{\"type\":\"terminal\",\"id\":12},\"status\":\"running\""
  {
    assert Digits(12) == Digits(1) + "2" && Digits(1) == "1";
  }

  lemma PlainItem(t: TaskUpdate, token: string)
    requires IsPlain(t.id) && IsPlain(t.labelText) && t.labelText != "" && StateToken(t.state) == token
    ensures IdJson(t) == "{\"id\":" + "\"" + t.id + "\""
    ensures StateJson(t) == ",\"state\":" + "\"" + token + "\""
    ensures LabelJson(t) == ",\"label\":" + "\"" + t.labelText + "\""
  {
    assert IsPlain(token);
    PlainStays(t.id);
    PlainStays(token);
    PlainStays(t.labelText);
  }

  lemma SentItem()
    ensures ItemJson(SENT_ITEM) ==
              "{\"id\":\"b1\"" + ",\"state\":\"running\"" + ",\"label\":\"Run tests\"" + ",\"holds\":true}"
  {
    hide IdJson, StateJson, LabelJson;
    PlainItem(SENT_ITEM, "running");
  }

  lemma OneItem(t: TaskUpdate)
    ensures Joined(ItemsJson([t])) == ItemJson(t)
  {
    hide ItemJson;
    var parts := ItemsJson([t]);
    assert parts == [ItemJson(t)];
    assert Joined(parts) == parts[0];
  }

  lemma SentTasks()
    ensures TasksJson(SENT.tasks)
            == ",\"tasks\":{\"snapshot\":true,\"items\":["
               + ("{\"id\":\"b1\"" + ",\"state\":\"running\"" + ",\"label\":\"Run tests\""
                  + ",\"holds\":true}") + "]}}"
  {
    hide ItemJson, Joined, ItemsJson;
    var b := SENT.tasks.value;
    assert WireItem(SENT_ITEM) == SENT_ITEM;
    assert WireItems(b.items) == b.items;
    assert WireBatch(b) == b;
    SentItem();
    OneItem(SENT_ITEM);
  }

  /** The bytes of one payload with everything in it: the names, their order, the shapes. */
  lemma WireBytesArePinned()
    ensures ToWire(SENT)
            == "{\"v\":1,\"source\":\"claude\"" + ",\"pane\":{\"type\":\"terminal\",\"id\":12},\"status\":\"running\""
               + ",\"repo\":\"pinky\"" + ",\"branch\":\"fix/x\"" + ",\"msg\":\"running tests\""
               + ",\"task\":\"fix flaky e2e\"" + ",\"ack\":true"
               + (",\"tasks\":{\"snapshot\":true,\"items\":["
                  + ("{\"id\":\"b1\"" + ",\"state\":\"running\"" + ",\"label\":\"Run tests\""
                     + ",\"holds\":true}") + "]}}")
  {
    hide Field, PaneAndStatus, TasksJson;
    SentNames();
    SentTexts();
    SentPane();
    SentTasks();
  }
}
