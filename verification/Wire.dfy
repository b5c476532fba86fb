/** The producer side of `zj_radar.status.v1` and the lenient half of its `tasks` field (crates/core/src/payload.rs):
    oversized input degrades to truncation only. */
module Wire {
  import opened Prelude
  import opened Vocabulary
  import opened Utf8
  import opened Sanitizer
  import opened Tasks
  import opened TaskLaws

  const MAX_PAYLOAD_BYTES: nat := 65536
  const MAX_WIRE_FIELD_CHARS: nat := 512
  const MAX_TASK_ID_CHARS: nat := 32
  const MAX_TASK_LABEL_CHARS: nat := 64
  const WIRE_TASK_ITEM_OVERHEAD_BYTES: nat := 96
  const WIRE_TASK_ITEM_MAX_BYTES: nat := (MAX_TASK_ID_CHARS + MAX_TASK_LABEL_CHARS) * 6 + WIRE_TASK_ITEM_OVERHEAD_BYTES
  const WIRE_TASKS_MAX_BYTES: nat := MAX_TASKS * WIRE_TASK_ITEM_MAX_BYTES

  datatype StatusPayload = StatusPayload(
    paneId: nat, status: Status, repo: string, branch: string, msg: string, task: string, source: string, ack: bool,
    tasks: Option<TaskBatch>)

  // ----- JSON text -----

  function HexDigit(d: nat): char
    requires d < 16
  {
    if d < 10 then '0' + d as char else 'a' + (d - 10) as char
  }

  /** One character inside a JSON string (section 7 of RFC 8259), as serde_json writes it. */
  function Escaped(c: char): string {
    var v := c as int;
    if c == '\"' then "\\\"" else if c == '\\' then "\\\\"
    else if v == 8 then "\\b" else if v == 9 then "\\t" else if v == 10 then "\\n"
    else if v == 12 then "\\f" else if v == 13 then "\\r"
    else if v < 0x20 then "\\u00" + [HexDigit(v / 16), HexDigit(v % 16)]
    else [c]
  }

  function EscapedAll(s: string): string {
    if s == [] then [] else Escaped(s[0]) + EscapedAll(s[1..])
  }

  function Quoted(s: string): string {
    "\"" + EscapedAll(s) + "\""
  }

  function Digits(n: nat): string {
    if n < 10 then ['0' + n as char] else Digits(n / 10) + ['0' + (n % 10) as char]
  }

  function StatusToken(s: Status): string {
    match s
    case Idle => "idle"
    case Done => "done"
    case Running => "running"
    case Pending => "pending"
    case Error => "error"
  }

  /** A status' token stands for it on the wire: the two tables are inverse, and any other token is idle. */
  lemma StatusTokensRoundTrip(s: Status, token: string)
    ensures StatusFromWire(StatusToken(s)) == s
    ensures StatusFromWire(token) != Status.Idle ==> StatusToken(StatusFromWire(token)) == token
  {
  }

  function StateToken(s: TaskState): string {
    match s
    case Running => "running"
    case Completed => "completed"
    case Failed => "failed"
    case Killed => "killed"
    case Ended => "ended"
  }

  // ----- to_wire -----

  function WireItem(t: TaskUpdate): TaskUpdate {
    t.(id := Take(t.id, MAX_TASK_ID_CHARS), labelText := Take(t.labelText, MAX_TASK_LABEL_CHARS))
  }

  function WireItems(items: seq<TaskUpdate>): (r: seq<TaskUpdate>)
    ensures |r| == |items| && forall k :: 0 <= k < |r| ==> r[k] == WireItem(items[k])
  {
    seq(|items|, k requires 0 <= k < |items| => WireItem(items[k]))
  }

  /** The batch as it rides the wire: cut to the caps, its snapshot flag dropped when items were. */
  function WireBatch(b: TaskBatch): TaskBatch {
    TaskBatch(WireItems(Take(b.items, MAX_TASKS)), b.snapshot && |b.items| <= MAX_TASKS)
  }

  function IdJson(t: TaskUpdate): string {
    "{\"id\":" + Quoted(t.id)
  }

  function StateJson(t: TaskUpdate): string {
    ",\"state\":" + Quoted(StateToken(t.state))
  }

  function LabelJson(t: TaskUpdate): string {
    if t.labelText == [] then "" else ",\"label\":" + Quoted(t.labelText)
  }

  function HoldsJson(t: TaskUpdate): string {
    if t.holds then ",\"holds\":true}" else "}"
  }

  function ItemJson(t: TaskUpdate): string {
    IdJson(t) + StateJson(t) + LabelJson(t) + HoldsJson(t)
  }

  function Joined(parts: seq<string>): string {
    if parts == [] then "" else parts[0] + (if |parts| == 1 then "" else ",") + Joined(parts[1..])
  }

  function ItemsJson(items: seq<TaskUpdate>): (r: seq<string>)
    ensures |r| == |items| && forall k :: 0 <= k < |r| ==> r[k] == ItemJson(items[k])
  {
    seq(|items|, k requires 0 <= k < |items| => ItemJson(items[k]))
  }

  function TasksOpening(snapshot: bool): string {
    if snapshot then ",\"tasks\":{\"snapshot\":true,\"items\":[" else ",\"tasks\":{\"snapshot\":false,\"items\":["
  }

  const TASKS_CLOSING := "]}}"

  function BatchJson(w: TaskBatch): string {
    TasksOpening(w.snapshot) + Joined(ItemsJson(w.items)) + TASKS_CLOSING
  }

  function TasksJson(b: Option<TaskBatch>): string {
    if b.None? then "}" else BatchJson(WireBatch(b.value))
  }

  function Field(key: string, text: string): string {
    key + Quoted(Take(text, MAX_WIRE_FIELD_CHARS))
  }

  function PaneAndStatus(p: StatusPayload): string {
    ",\"pane\":{\"type\":\"terminal\",\"id\":" + Digits(p.paneId) + "},\"status\":\"" + StatusToken(p.status) + "\""
  }

  function ToWire(p: StatusPayload): string {
    Field("{\"v\":1,\"source\":", p.source)
    + PaneAndStatus(p)
    + Field(",\"repo\":", p.repo)
    + Field(",\"branch\":", p.branch)
    + Field(",\"msg\":", p.msg)
    + Field(",\"task\":", p.task)
    + (if p.ack then ",\"ack\":true" else "")
    + TasksJson(p.tasks)
  }

  // ----- the size bound -----

  function CharBytes(c: char): nat {
    if (c as int) < 0x80 then 1 else if (c as int) < 0x800 then 2 else if (c as int) < 0x10000 then 3 else 4
  }

  /** The length of `s` in UTF-8, without building it. */
  function ByteLen(s: string): nat {
    if s == [] then 0 else CharBytes(s[0]) + ByteLen(s[1..])
  }

  lemma {:induction false} ByteLenIsEncodedLength(s: string)
    ensures ByteLen(s) == |EncodeAll(s)|
  {
    if s != [] {
      ByteLenIsEncodedLength(s[1..]);
    }
  }

  lemma {:induction false} ByteLenOfConcat(s: string, t: string)
    ensures ByteLen(s + t) == ByteLen(s) + ByteLen(t)
  {
    if s == [] {
      assert s + t == t;
    } else {
      ByteLenOfConcat(s[1..], t);
      assert (s + t)[1..] == s[1..] + t;
    }
  }

  lemma {:induction false} ByteLenOfAscii(s: string)
    requires forall k :: 0 <= k < |s| ==> s[k] as int < 0x80
    ensures ByteLen(s) == |s|
  {
    if s != [] {
      ByteLenOfAscii(s[1..]);
    }
  }

  lemma EscapedBytes(c: char)
    ensures ByteLen(Escaped(c)) <= 6
  {
    var e := Escaped(c);
    if |e| > 1 {
      ByteLenOfAscii(e);
    }
  }

  lemma {:induction false} EscapedAllBytes(s: string)
    ensures ByteLen(EscapedAll(s)) <= 6 * |s|
  {
    if s != [] {
      EscapedBytes(s[0]);
      EscapedAllBytes(s[1..]);
      ByteLenOfConcat(Escaped(s[0]), EscapedAll(s[1..]));
    }
  }

  lemma QuotedBytes(s: string)
    ensures ByteLen(Quoted(s)) <= 6 * |s| + 2
  {
    EscapedAllBytes(s);
    ByteLenOfAscii("\"");
    ByteLenOfConcat("\"", EscapedAll(s));
    ByteLenOfConcat("\"" + EscapedAll(s), "\"");
  }

  lemma {:induction false} DigitsBytes(n: nat, width: nat, bound: nat)
    requires width >= 1 && n < bound && bound == PowerOfTen(width)
    ensures |Digits(n)| <= width && forall k :: 0 <= k < |Digits(n)| ==> Digits(n)[k] as int < 0x80
    decreases width
  {
    if n >= 10 {
      DigitsBytes(n / 10, width - 1, PowerOfTen(width - 1));
    }
  }

  function PowerOfTen(n: nat): nat {
    if n == 0 then 1 else 10 * PowerOfTen(n - 1)
  }

  lemma FieldBytes(key: string, text: string)
    requires forall k :: 0 <= k < |key| ==> key[k] as int < 0x80
    ensures ByteLen(Field(key, text)) <= |key| + 2 + MAX_WIRE_FIELD_CHARS * 6
  {
    ByteLenOfAscii(key);
    QuotedBytes(Take(text, MAX_WIRE_FIELD_CHARS));
    ByteLenOfConcat(key, Quoted(Take(text, MAX_WIRE_FIELD_CHARS)));
  }

  lemma StateTokenBytes(s: TaskState)
    ensures ByteLen(Quoted(StateToken(s))) == |StateToken(s)| + 2 <= 11
  {
    var t := StateToken(s);
    EscapedPlain(t);
    ByteLenOfAscii(Quoted(t));
  }

  /** Plain lower-case text needs no escape. */
  lemma {:induction false} EscapedPlain(s: string)
    requires forall k :: 0 <= k < |s| ==> 'a' <= s[k] <= 'z'
    ensures EscapedAll(s) == s
  {
    if s != [] {
      EscapedPlain(s[1..]);
    }
  }

  lemma IdBytes(t: TaskUpdate)
    ensures ByteLen(IdJson(t)) <= |t.id| * 6 + 8
  {
    QuotedBytes(t.id);
    ByteLenOfAscii("{\"id\":");
    ByteLenOfConcat("{\"id\":", Quoted(t.id));
  }

  lemma StateBytes(t: TaskUpdate)
    ensures ByteLen(StateJson(t)) <= 20
  {
    StateTokenBytes(t.state);
    ByteLenOfAscii(",\"state\":");
    ByteLenOfConcat(",\"state\":", Quoted(StateToken(t.state)));
  }

  lemma LabelBytes(t: TaskUpdate)
    ensures ByteLen(LabelJson(t)) <= |t.labelText| * 6 + 11
  {
    ByteLenOfAscii(",\"label\":");
    QuotedBytes(t.labelText);
    ByteLenOfConcat(",\"label\":", Quoted(t.labelText));
  }

  lemma HoldsBytes(t: TaskUpdate)
    ensures ByteLen(HoldsJson(t)) <= 14
  {
    ByteLenOfAscii(HoldsJson(t));
  }

  /** The per-item allowance covers the keys, the state token and the punctuation, with the separating comma. */
  lemma ItemBytes(t: TaskUpdate)
    ensures ByteLen(ItemJson(t)) + 1 <= (|t.id| + |t.labelText|) * 6 + WIRE_TASK_ITEM_OVERHEAD_BYTES
  {
    IdBytes(t);
    StateBytes(t);
    LabelBytes(t);
    HoldsBytes(t);
    SumOfThree(IdJson(t), StateJson(t), LabelJson(t));
    ByteLenOfConcat(IdJson(t) + StateJson(t) + LabelJson(t), HoldsJson(t));
  }

  lemma SumOfThree(a: string, b: string, c: string)
    ensures ByteLen(a + b + c) == ByteLen(a) + ByteLen(b) + ByteLen(c)
  {
    ByteLenOfConcat(a, b);
    ByteLenOfConcat(a + b, c);
  }

  lemma {:induction false} JoinedBytes(parts: seq<string>)
    requires forall k :: 0 <= k < |parts| ==> ByteLen(parts[k]) + 1 <= WIRE_TASK_ITEM_MAX_BYTES
    ensures ByteLen(Joined(parts)) <= WIRE_TASK_ITEM_MAX_BYTES * |parts|
  {
    if parts != [] {
      var sep := if |parts| == 1 then "" else ",";
      JoinedBytes(parts[1..]);
      assert ByteLen(sep) <= 1;
      SumOfThree(parts[0], sep, Joined(parts[1..]));
    }
  }

  lemma ItemsBytes(items: seq<TaskUpdate>)
    requires forall k :: 0 <= k < |items| ==>
               |items[k].id| <= MAX_TASK_ID_CHARS && |items[k].labelText| <= MAX_TASK_LABEL_CHARS
    ensures ByteLen(Joined(ItemsJson(items))) <= WIRE_TASK_ITEM_MAX_BYTES * |items|
  {
    forall k | 0 <= k < |items| ensures ByteLen(ItemJson(items[k])) + 1 <= WIRE_TASK_ITEM_MAX_BYTES {
      ItemBytes(items[k]);
    }
    JoinedBytes(ItemsJson(items));
  }

  lemma TasksOpeningBytes(snapshot: bool)
    ensures ByteLen(TasksOpening(snapshot)) <= 48
  {
    if snapshot {
      ByteLenOfAscii(",\"tasks\":{\"snapshot\":true,\"items\":[");
    } else {
      ByteLenOfAscii(",\"tasks\":{\"snapshot\":false,\"items\":[");
    }
  }

  lemma BatchBytes(w: TaskBatch)
    requires |w.items| <= MAX_TASKS
    requires forall k :: 0 <= k < |w.items| ==>
               |w.items[k].id| <= MAX_TASK_ID_CHARS && |w.items[k].labelText| <= MAX_TASK_LABEL_CHARS
    ensures ByteLen(BatchJson(w)) <= WIRE_TASKS_MAX_BYTES + 64
  {
    var opening, items := TasksOpening(w.snapshot), Joined(ItemsJson(w.items));
    TasksOpeningBytes(w.snapshot);
    ItemsBytes(w.items);
    AtMost(|w.items|);
    SumOfThree(opening, items, TASKS_CLOSING);
    ByteLenOfAscii(TASKS_CLOSING);
  }

  lemma AtMost(n: nat)
    requires n <= MAX_TASKS
    ensures WIRE_TASK_ITEM_MAX_BYTES * n <= WIRE_TASKS_MAX_BYTES
  {
    assert WIRE_TASK_ITEM_MAX_BYTES == 672;
  }

  lemma TasksBytes(b: Option<TaskBatch>)
    ensures ByteLen(TasksJson(b)) <= WIRE_TASKS_MAX_BYTES + 64
  {
    if b.Some? {
      BatchBytes(WireBatch(b.value));
    }
  }

  lemma HeaderBytes(p: StatusPayload)
    requires p.paneId < 0x1_0000_0000
    ensures ByteLen(PaneAndStatus(p)) <= 96
  {
    DigitsBytes(p.paneId, 10, 10000000000) by {
      assert PowerOfTen(4) == 10000;
      assert PowerOfTen(8) == 100000000;
    }
    ByteLenOfAscii(PaneAndStatus(p));
  }

  lemma SumOfEight(a: string, b: string, c: string, d: string, e: string, f: string, g: string, h: string)
    ensures ByteLen(a + b + c + d + e + f + g + h)
         == ByteLen(a) + ByteLen(b) + ByteLen(c) + ByteLen(d) + ByteLen(e) + ByteLen(f) + ByteLen(g) + ByteLen(h)
  {
    SumOfThree(a, b, c);
    ByteLenOfConcat(a + b + c, d);
    SumOfThree(a + b + c + d, e, f);
    SumOfThree(a + b + c + d + e + f, g, h);
  }

  lemma FreeTextBytes(p: StatusPayload)
    ensures ByteLen(Field("{\"v\":1,\"source\":", p.source)) + ByteLen(Field(",\"repo\":", p.repo))
            + ByteLen(Field(",\"branch\":", p.branch)) + ByteLen(Field(",\"msg\":", p.msg))
            + ByteLen(Field(",\"task\":", p.task)) <= 16000
  {
    FieldBytes("{\"v\":1,\"source\":", p.source);
    FieldBytes(",\"repo\":", p.repo);
    FieldBytes(",\"branch\":", p.branch);
    FieldBytes(",\"msg\":", p.msg);
    FieldBytes(",\"task\":", p.task);
  }

  /** Whatever the payload holds, its JSON fits the intake limit (with half of it to spare). */
  lemma ToWireFits(p: StatusPayload)
    requires p.paneId < 0x1_0000_0000
    ensures |EncodeAll(ToWire(p))| < MAX_PAYLOAD_BYTES / 2
  {
    ByteLenIsEncodedLength(ToWire(p));
    var ack := if p.ack then ",\"ack\":true" else "";
    FreeTextBytes(p);
    HeaderBytes(p);
    ByteLenOfAscii(ack);
    TasksBytes(p.tasks);
    SumOfEight(Field("{\"v\":1,\"source\":", p.source), PaneAndStatus(p), Field(",\"repo\":", p.repo),
               Field(",\"branch\":", p.branch), Field(",\"msg\":", p.msg), Field(",\"task\":", p.task), ack,
               TasksJson(p.tasks));
  }

  // ----- parse_tasks -----

  /** One element of the wire's `items`: an object with the expected fields - or something else, sent about `id`. */
  datatype RawTask = Malformed(id: string) | Raw(update: TaskUpdate)

  function ParsedItem(raw: RawTask): Option<TaskUpdate> {
    if raw.Malformed? then None
    else
      var id := Sanitize(raw.update.id, MAX_TASK_ID_CHARS);
      if id == [] then None
      else Some(raw.update.(id := id, labelText := Sanitize(raw.update.labelText, MAX_TASK_LABEL_CHARS)))
  }

  /** The items that parse, in order. */
  function ParsedItems(raws: seq<RawTask>): seq<TaskUpdate> {
    if raws == [] then []
    else
      match ParsedItem(raws[0])
      case Some(u) => [u] + ParsedItems(raws[1..])
      case None => ParsedItems(raws[1..])
  }

  function ParseTasks(raws: seq<RawTask>, snapshot: bool): TaskBatch {
    var items := Take(ParsedItems(raws), MAX_TASKS + 1);
    TaskBatch(Take(items, MAX_TASKS), snapshot && |items| <= MAX_TASKS)
  }

  /** A batch that kept its authority has lost no readable item, and keeps it exactly when none had to be cut. */
  lemma AuthorityMeansComplete(raws: seq<RawTask>, snapshot: bool)
    ensures var b := ParseTasks(raws, snapshot);
            && (b.snapshot <==> snapshot && |ParsedItems(raws)| <= MAX_TASKS)
            && (b.snapshot ==> b.items == ParsedItems(raws))
            && |b.items| <= MAX_TASKS
  {
  }

  lemma {:induction false} ParsedItemsHasEach(raws: seq<RawTask>, k: nat)
    requires k < |raws| && ParsedItem(raws[k]).Some?
    ensures ParsedItem(raws[k]).value in ParsedItems(raws)
  {
    if k > 0 {
      ParsedItemsHasEach(raws[1..], k - 1);
    }
  }

  function AsRaw(items: seq<TaskUpdate>): (r: seq<RawTask>)
    ensures |r| == |items| && forall k :: 0 <= k < |r| ==> r[k] == Raw(items[k])
  {
    seq(|items|, k requires 0 <= k < |items| => Raw(items[k]))
  }

  /** What the plugin reads of a batch a producer sent. */
  function Received(b: TaskBatch): TaskBatch {
    ParseTasks(AsRaw(WireBatch(b).items), WireBatch(b).snapshot)
  }

  predicate CleanIds(b: TaskBatch) {
    forall k :: 0 <= k < |b.items| ==> b.items[k].id != [] && AllKept(b.items[k].id)
  }

  /** With clean non-empty ids, a batch that still has authority on arrival reports running everything it was sent to
      report running (under the capped id). */
  lemma AuthoritySurvivesOnlyWhole(b: TaskBatch, id: string)
    requires CleanIds(b) && b.ReportsRunning(id) && Received(b).snapshot
    ensures Received(b).ReportsRunning(Take(id, MAX_TASK_ID_CHARS))
    ensures b.snapshot && |b.items| <= MAX_TASKS
  {
    var w := WireBatch(b);
    var raws := AsRaw(w.items);
    AuthorityMeansComplete(raws, w.snapshot);
    var k :| 0 <= k < |b.items| && b.items[k].id == id && b.items[k].state == TaskState.Running;
    FixpointsAreTheCleanStrings(w.items[k].id, MAX_TASK_ID_CHARS);
    ParsedItemsHasEach(raws, k);
    var u := ParsedItem(raws[k]).value;
    var j :| 0 <= j < |Received(b).items| && Received(b).items[j] == u;
    assert u.id == Take(id, MAX_TASK_ID_CHARS) && u.state == TaskState.Running;
  }

  /** A batch the receiver truncated ends no stored running task by omission: not one it never named, and not one named
      only by the items cut off. */
  lemma TruncatedBatchEndsNothing(t: TaskList, raws: seq<RawTask>, snapshot: bool, prev: Option<Status>, next: Status,
                                  prompted: bool, now: nat, a: BgTask)
    requires Valid(t) && next != Status.Idle && a in t.items && a.state == TaskState.Running
    requires |ParsedItems(raws)| > MAX_TASKS
    requires var b := ParseTasks(raws, snapshot); forall j :: 0 <= j < |b.items| ==> b.items[j].id != a.id
    ensures var r := Applied(t, Some(ParseTasks(raws, snapshot)), prev, next, prompted, now);
            a in r.items || CrowdedOutBy(r.items, a.id)
  {
    AuthorityMeansComplete(raws, snapshot);
    DeltaEndsNothingByOmission(t, ParseTasks(raws, snapshot), prev, next, prompted, now, a);
  }

  /** A batch too long for the producer's side of the wire loses its authority there. */
  lemma LongBatchLosesAuthority(b: TaskBatch)
    requires |b.items| > MAX_TASKS
    ensures !Received(b).snapshot
  {
    AuthorityMeansComplete(AsRaw(WireBatch(b).items), WireBatch(b).snapshot);
  }

  /** So it ends no stored running task by omission either: nothing that what survives does not name. */
  lemma LongBatchEndsNothing(t: TaskList, b: TaskBatch, prev: Option<Status>, next: Status, prompted: bool, now: nat,
                             a: BgTask)
    requires Valid(t) && next != Status.Idle && a in t.items && a.state == TaskState.Running && |b.items| > MAX_TASKS
    requires forall j :: 0 <= j < |Received(b).items| ==> Received(b).items[j].id != a.id
    ensures var r := Applied(t, Some(Received(b)), prev, next, prompted, now);
            a in r.items || CrowdedOutBy(r.items, a.id)
  {
    LongBatchLosesAuthority(b);
    DeltaEndsNothingByOmission(t, Received(b), prev, next, prompted, now, a);
  }

  // ----- items that do not parse -----

  /** A readable item reports the task with this stored id as running (or as ended). */
  predicate ReadablyReports(raws: seq<RawTask>, id: string, ended: bool) {
    exists k :: 0 <= k < |raws| && ParsedItem(raws[k]).Some? && ParsedItem(raws[k]).value.id == id
                && ParsedItem(raws[k]).value.state.IsEnded() == ended
  }

  lemma ReportsAreReadable(raws: seq<RawTask>, id: string)
    ensures ReportsEnd(ParsedItems(raws), id) <==> ReadablyReports(raws, id, true)
    ensures TaskBatch(ParsedItems(raws), true).ReportsRunning(id) <==> ReadablyReports(raws, id, false)
  {
    var us := ParsedItems(raws);
    forall ended: bool
      ensures (exists j :: 0 <= j < |us| && us[j].id == id && us[j].state.IsEnded() == ended)
              <==> ReadablyReports(raws, id, ended)
    {
      if ReadablyReports(raws, id, ended) {
        var k :| 0 <= k < |raws| && ParsedItem(raws[k]).Some? && ParsedItem(raws[k]).value.id == id
                 && ParsedItem(raws[k]).value.state.IsEnded() == ended;
        ParsedItemsHasEach(raws, k);
      }
      if exists j :: 0 <= j < |us| && us[j].id == id && us[j].state.IsEnded() == ended {
        var j :| 0 <= j < |us| && us[j].id == id && us[j].state.IsEnded() == ended;
        ParsedItemsComeFrom(raws, us[j]);
      }
    }
  }

  /** Authority speaks for readable items alone. Under a batch that keeps it, a stored running task is left running
      exactly when some readable item reports it running and none reports its end - an unreadable item about it does not
      count - or, reported so, is pushed out by sixteen other running tasks. */
  lemma OnlyReadableItemsKeepTasks(t: TaskList, raws: seq<RawTask>, prev: Option<Status>, next: Status, prompted: bool,
                                   now: nat, a: BgTask)
    requires Valid(t) && next != Status.Idle && a in t.items && a.state == TaskState.Running
    requires ParseTasks(raws, true).snapshot
    ensures var r := Applied(t, Some(ParseTasks(raws, true)), prev, next, prompted, now).items;
            var reported := ReadablyReports(raws, a.id, false) && !ReadablyReports(raws, a.id, true);
            && (HasRunning(r, a.id) ==> reported)
            && (reported ==> HasRunning(r, a.id) || CrowdedOutBy(r, a.id))
  {
    AuthorityMeansComplete(raws, true);
    ReportsAreReadable(raws, a.id);
    SnapshotKeepsExactly(t, ParseTasks(raws, true), prev, next, prompted, now, a);
  }

  /** So the only item of a snapshot, sent about a stored running task but unreadable, ends that task. */
  lemma UnreadableItemEndsItsTask(t: TaskList, task: BgTask, prev: Option<Status>, next: Status, prompted: bool,
                                  now: nat)
    requires Valid(t) && next != Status.Idle && task in t.items && task.state == TaskState.Running
    ensures var raws := [Malformed(task.id)];
            && ParseTasks(raws, true).snapshot
            && !HasRunning(Applied(t, Some(ParseTasks(raws, true)), prev, next, prompted, now).items, task.id)
  {
    var raws := [Malformed(task.id)];
    assert ParsedItems(raws) == [] by {
      assert raws[1..] == [];
    }
    assert !ReadablyReports(raws, task.id, false);
    OnlyReadableItemsKeepTasks(t, raws, prev, next, prompted, now, task);
  }

  lemma {:induction false} ParsedItemsComeFrom(raws: seq<RawTask>, u: TaskUpdate)
    requires u in ParsedItems(raws)
    ensures exists k :: 0 <= k < |raws| && ParsedItem(raws[k]) == Some(u)
  {
    if ParsedItem(raws[0]) != Some(u) {
      assert u in ParsedItems(raws[1..]);
      ParsedItemsComeFrom(raws[1..], u);
      var k :| 0 <= k < |raws[1..]| && ParsedItem(raws[1..][k]) == Some(u);
      assert raws[k + 1] == raws[1..][k];
    }
  }
}
