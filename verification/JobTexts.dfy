/** Jobs as JSON values and as texts: what job_encode spells, job_decode, and the round trip through printing and
    parsing. */
module JobTexts {
  import opened Bytes
  import opened Values
  import opened Tasks
  import opened Attempts
  import opened Jobs
  import Comparing
  import Printing
  import Machine

  const ID: bytes := [0x69, 0x64]
  const EXEC_MODE: bytes := [0x65, 0x78, 0x65, 0x63, 0x4D, 0x6F, 0x64, 0x65]
  const RUN_MODE: bytes := [0x72, 0x75, 0x6E, 0x4D, 0x6F, 0x64, 0x65]
  const TASKS: bytes := [0x74, 0x61, 0x73, 0x6B, 0x73]
  const NAME: bytes := [0x6E, 0x61, 0x6D, 0x65]
  const PARALLEL: bytes := [0x70, 0x61, 0x72, 0x61, 0x6C, 0x6C, 0x65, 0x6C]
  const SEQUENTIAL: bytes := [0x73, 0x65, 0x71, 0x75, 0x65, 0x6E, 0x74, 0x69, 0x61, 0x6C]
  const ONCE: bytes := [0x6F, 0x6E, 0x63, 0x65]
  const REPEAT: bytes := [0x72, 0x65, 0x70, 0x65, 0x61, 0x74]

  const C_INT_MAX: int := 0x7FFF_FFFF

  /** What a job's description says; the tasks of a decoded job are all ready. */
  datatype Plan = Plan(id: int, mode: Mode, repeating: bool, names: seq<bytes>)

  /** The plans that job_create and task_create admit, within the range of int. */
  predicate Admissible(p: Plan) {
    && 1 <= p.id <= C_INT_MAX
    && forall k | 0 <= k < |p.names| :: p.names[k] != [] && NulFree(p.names[k])
  }

  // Encoding

  function EncodeTask(name: bytes): Value {
    Obj([Entry(NAME, Str(name))])
  }

  function EncodeTasks(names: seq<bytes>): (items: seq<Value>)
    ensures |items| == |names| && forall k | 0 <= k < |names| :: items[k] == EncodeTask(names[k])
  {
    seq(|names|, k requires 0 <= k < |names| => EncodeTask(names[k]))
  }

  function Encode(p: Plan): Value {
    Obj([Entry(ID, Integer(p.id)),
         Entry(EXEC_MODE, Str(if p.mode == Parallel then PARALLEL else SEQUENTIAL)),
         Entry(RUN_MODE, Str(if p.repeating then REPEAT else ONCE)),
         Entry(TASKS, Arr(EncodeTasks(p.names)))])
  }

  // Decoding

  /** The conversion of a 64-bit integer to int. */
  function ToInt(i: int): (n: int)
    ensures -C_INT_MAX - 1 <= n <= C_INT_MAX && (i - n) % (2 * C_INT_MAX + 2) == 0
    ensures -C_INT_MAX - 1 <= i <= C_INT_MAX ==> n == i
  {
    (i + C_INT_MAX + 1) % (2 * C_INT_MAX + 2) - C_INT_MAX - 1
  }

  /** The name of the task that a value describes. */
  function DecodeTask(v: Value): (r: Option<bytes>)
    ensures r.Some? ==> r.value != []
  {
    if !v.Obj? then None else
      match Comparing.Lookup(v.entries, NAME)
      case Some(Str(s)) => if Comparing.CString(s) == [] then None else Some(Comparing.CString(s))
      case _ => None
  }

  function DecodeTasks(items: seq<Value>): Option<seq<bytes>> {
    if items == [] then Some([]) else
      var front, last := DecodeTasks(items[..|items| - 1]), DecodeTask(items[|items| - 1]);
      if front.None? || last.None? then None else Some(front.value + [last.value])
  }

  function DecodeMode(v: Option<Value>): Mode {
    match v
    case Some(Str(s)) => if Comparing.CString(s) == PARALLEL then Parallel else Sequential
    case _ => Sequential
  }

  function DecodeRepeating(v: Option<Value>): bool {
    match v
    case Some(Str(s)) => Comparing.CString(s) == REPEAT
    case _ => false
  }

  function Decode(v: Value): Option<Plan> {
    if !v.Obj? then None else
      match (Comparing.Lookup(v.entries, ID), Comparing.Lookup(v.entries, TASKS))
      case (Some(Integer(i)), Some(Arr(items))) =>
        var names := DecodeTasks(items);
        if ToInt(i) <= 0 || names.None? then None
        else Some(Plan(ToInt(i), DecodeMode(Comparing.Lookup(v.entries, EXEC_MODE)),
                       DecodeRepeating(Comparing.Lookup(v.entries, RUN_MODE)), names.value))
      case _ => None
  }

  // Round trips

  lemma KeysAsCStrings()
    ensures Comparing.CString(ID) == ID && Comparing.CString(EXEC_MODE) == EXEC_MODE
    ensures Comparing.CString(RUN_MODE) == RUN_MODE && Comparing.CString(TASKS) == TASKS
      && Comparing.CString(NAME) == NAME
    ensures Comparing.CString(PARALLEL) == PARALLEL && Comparing.CString(SEQUENTIAL) == SEQUENTIAL
    ensures Comparing.CString(REPEAT) == REPEAT && Comparing.CString(ONCE) == ONCE
  {
    hide Comparing.CString;
    Comparing.CStringNulFree(ID);
    Comparing.CStringNulFree(EXEC_MODE);
    Comparing.CStringNulFree(RUN_MODE);
    Comparing.CStringNulFree(TASKS);
    Comparing.CStringNulFree(NAME);
    Comparing.CStringNulFree(PARALLEL);
    Comparing.CStringNulFree(SEQUENTIAL);
    Comparing.CStringNulFree(REPEAT);
    Comparing.CStringNulFree(ONCE);
  }

  lemma TaskRoundTrip(name: bytes)
    requires name != [] && NulFree(name)
    ensures DecodeTask(EncodeTask(name)) == Some(name)
  {
    KeysAsCStrings();
    Comparing.CStringNulFree(name);
    hide Comparing.CString;
  }

  lemma {:induction false} TasksRoundTrip(names: seq<bytes>)
    requires forall k | 0 <= k < |names| :: names[k] != [] && NulFree(names[k])
    ensures DecodeTasks(EncodeTasks(names)) == Some(names)
    decreases |names|
  {
    hide DecodeTask, EncodeTask;
    if names != [] {
      var n := |names| - 1;
      TasksRoundTrip(names[..n]);
      TaskRoundTrip(names[n]);
      assert EncodeTasks(names)[..n] == EncodeTasks(names[..n]);
      assert names == names[..n] + [names[n]];
    }
  }

  lemma DecodeEncode(p: Plan)
    requires Admissible(p)
    ensures Decode(Encode(p)) == Some(p)
  {
    hide Comparing.CString, Comparing.Lookup, DecodeTasks, EncodeTasks;
    KeysAsCStrings();
    TasksRoundTrip(p.names);
    EncodedFields(p);
  }

  lemma EncodedFields(p: Plan)
    ensures var es := Encode(p).entries;
      && Comparing.Lookup(es, ID) == Some(Integer(p.id))
      && Comparing.Lookup(es, EXEC_MODE) == Some(Str(if p.mode == Parallel then PARALLEL else SEQUENTIAL))
      && Comparing.Lookup(es, RUN_MODE) == Some(Str(if p.repeating then REPEAT else ONCE))
      && Comparing.Lookup(es, TASKS) == Some(Arr(EncodeTasks(p.names)))
  {
    KeysAsCStrings();
    hide Comparing.CString, Comparing.Lookup, EncodeTasks;
    var es := Encode(p).entries;
    Comparing.LookupFirst(es, es[0].name, 0);
    Comparing.LookupFirst(es, es[1].name, 1);
    Comparing.LookupFirst(es, es[2].name, 2);
    Comparing.LookupFirst(es, es[3].name, 3);
  }

  lemma EncodePlain(p: Plan)
    requires Admissible(p)
    ensures Plain(Encode(p))
  {
    forall k | 0 <= k < |p.names|
      ensures Plain(EncodeTask(p.names[k]))
    {
      assert NulFree(NAME);
    }
  }

  /** The job a text describes. */
  function FromText(text: bytes): Option<Plan> {
    var v := Machine.Parse(text);
    if v.None? then None else Decode(v.value)
  }

  /** A job survives the trip through text: in every print mode, parsing and decoding the printed encoding gives a job
      with the same id, modes and task names in order. */
  lemma JobRoundTrip(p: Plan, o: Printing.Options)
    requires Admissible(p)
    ensures FromText(Printing.Print(Encode(p), o, 0)) == Some(p)
  {
    EncodePlain(p);
    Printing.ParsePrint(Encode(p), o);
    DecodeEncode(p);
    hide Decode, Encode, Machine.Parse, Printing.Print, Admissible;
  }

  lemma {:induction false} CStringIsNulFree(s: bytes)
    ensures NulFree(Comparing.CString(s))
    decreases |s|
  {
    if s != [] && s[0] != 0 {
      CStringIsNulFree(s[1..]);
    }
  }

  lemma {:induction false} DecodedNames(items: seq<Value>)
    requires DecodeTasks(items).Some?
    ensures var names := DecodeTasks(items).value;
      |names| == |items| && forall k | 0 <= k < |names| :: names[k] != [] && NulFree(names[k])
    decreases |items|
  {
    if items != [] {
      DecodedNames(items[..|items| - 1]);
      var v := items[|items| - 1];
      var found := Comparing.Lookup(v.entries, NAME);
      CStringIsNulFree(found.value.s);
    }
  }

  /** Whatever text is sent, a job that comes of it is admissible, so that encoding and sending it on loses nothing. */
  lemma DecodedAdmissible(text: bytes, o: Printing.Options)
    requires FromText(text).Some?
    ensures Admissible(FromText(text).value)
    ensures FromText(Printing.Print(Encode(FromText(text).value), o, 0)) == FromText(text)
  {
    hide Comparing.CString, Comparing.Lookup, DecodeTasks, DecodeMode, DecodeRepeating, Machine.Parse, Printing.Print,
        NulFree;
    var v := Machine.Parse(text).value;
    DecodedNames(Comparing.Lookup(v.entries, TASKS).value.items);
    JobRoundTrip(FromText(text).value, o);
  }

  // What decoding takes from a value

  lemma KeysSpell()
    ensures ID == Ascii("id") && EXEC_MODE == Ascii("execMode") && RUN_MODE == Ascii("runMode")
    ensures TASKS == Ascii("tasks") && NAME == Ascii("name")
    ensures PARALLEL == Ascii("parallel") && SEQUENTIAL == Ascii("sequential")
    ensures ONCE == Ascii("once") && REPEAT == Ascii("repeat")
  {
  }

  predicate TextAt(entries: seq<Entry>, name: bytes, k: nat, text: bytes) {
    Comparing.FirstWith(entries, name, k) && entries[k].value.Str? && Comparing.CString(entries[k].value.s) == text
  }

  /** The first entry with the name is a string that begins with the text as its C string. */
  ghost predicate FirstIsText(entries: seq<Entry>, name: bytes, text: bytes) {
    exists k: nat :: TextAt(entries, name, k, text)
  }

  /** n is the int that a 64-bit integer converts to. */
  predicate Converts(i: int, n: int) {
    -0x8000_0000 <= n <= 0x7FFF_FFFF && (i - n) % 0x1_0000_0000 == 0
  }

  /** The value describes a task with this name: an object whose first entry "name" is a string, not empty as a C
      string. */
  ghost predicate DescribesTask(v: Value, name: bytes) {
    name != [] && v.Obj? && FirstIsText(v.entries, Ascii("name"), name)
  }

  /** The entries describe a job: the first "id" is an integer that converts to the positive id, and the first "tasks"
      is an array that describes a task with each name in turn. */
  ghost predicate DescribesJob(entries: seq<Entry>, id: int, names: seq<bytes>) {
    && id > 0
    && (exists k: nat :: Comparing.FirstWith(entries, Ascii("id"), k)
          && entries[k].value.Integer? && Converts(entries[k].value.i, id))
    && (exists k: nat :: Comparing.FirstWith(entries, Ascii("tasks"), k)
          && entries[k].value.Arr? && DescribeTasks(entries[k].value.items, names))
  }

  ghost predicate DescribeTasks(items: seq<Value>, names: seq<bytes>) {
    |items| == |names| && forall j | 0 <= j < |items| :: DescribesTask(items[j], names[j])
  }

  lemma TextLaw(entries: seq<Entry>, name: bytes, text: bytes)
    ensures FirstIsText(entries, name, text) <==>
      var r := Comparing.Lookup(entries, name); r.Some? && r.value.Str? && Comparing.CString(r.value.s) == text
  {
    hide Comparing.CString;
    if k: nat :| TextAt(entries, name, k, text) {
      Comparing.LookupFirst(entries, name, k);
    }
    var r := Comparing.Lookup(entries, name);
    if r.Some? && r.value.Str? && Comparing.CString(r.value.s) == text {
      var k: nat :| Comparing.FirstWith(entries, name, k) && r.value == entries[k].value;
      assert TextAt(entries, name, k, text);
    }
  }

  lemma TaskLaw(v: Value)
    ensures DecodeTask(v).Some? ==> DescribesTask(v, DecodeTask(v).value)
    ensures forall name | DescribesTask(v, name) :: DecodeTask(v) == Some(name)
  {
    KeysSpell();
    hide Comparing.CString, Comparing.Lookup, FirstIsText, Ascii;
    if v.Obj? {
      forall name ensures FirstIsText(v.entries, NAME, name) <==>
        var r := Comparing.Lookup(v.entries, NAME); r.Some? && r.value.Str? && Comparing.CString(r.value.s) == name
      {
        TextLaw(v.entries, NAME, name);
      }
    }
  }

  lemma {:induction false} TasksLaw(items: seq<Value>)
    ensures DecodeTasks(items).Some? ==> DescribeTasks(items, DecodeTasks(items).value)
    ensures forall names | DescribeTasks(items, names) :: DecodeTasks(items) == Some(names)
    decreases |items|
  {
    hide DecodeTask, DescribesTask;
    if items != [] {
      var n := |items| - 1;
      TasksLaw(items[..n]);
      TaskLaw(items[n]);
      forall names | DescribeTasks(items, names) ensures DecodeTasks(items) == Some(names) {
        assert DescribeTasks(items[..n], names[..n]) && DescribesTask(items[n], names[n]);
        assert names == names[..n] + [names[n]];
      }
    }
  }

  lemma ConvertsOnce(i: int, n: int)
    ensures Converts(i, n) <==> n == ToInt(i)
  {
  }

  /** What job_decode makes of a value, said of the first entries with each name: a job exactly when the entries
      describe one, with that id and those task names; parallel exactly when the first "execMode" is the string
      "parallel", and repeating exactly when the first "runMode" is the string "repeat". */
  ghost predicate Conforms(v: Value, r: Option<Plan>) {
    && (r.Some? ==>
          && v.Obj? && DescribesJob(v.entries, r.value.id, r.value.names)
          && (r.value.mode == Parallel <==> FirstIsText(v.entries, Ascii("execMode"), Ascii("parallel")))
          && (r.value.repeating <==> FirstIsText(v.entries, Ascii("runMode"), Ascii("repeat"))))
    && (r.None? ==> !v.Obj? || forall id, names :: !DescribesJob(v.entries, id, names))
  }

  lemma DecodeLaw(v: Value)
    ensures Conforms(v, Decode(v))
  {
    hide Comparing.CString, Comparing.Lookup, Comparing.FirstWith, FirstIsText, Ascii, DecodeTasks, ToInt, Converts;
    KeysSpell();
    if v.Obj? {
      TextLaw(v.entries, EXEC_MODE, PARALLEL);
      TextLaw(v.entries, RUN_MODE, REPEAT);
      if Decode(v).Some? {
        DecodedDescribes(v);
      }
      forall n, names | DescribesJob(v.entries, n, names) ensures Decode(v).Some? {
        DescribedDecodes(v, n, names);
      }
    }
    hide DescribesJob;
  }

  lemma DecodedDescribes(v: Value)
    requires v.Obj? && Decode(v).Some?
    ensures DescribesJob(v.entries, Decode(v).value.id, Decode(v).value.names)
  {
    hide Comparing.CString, Comparing.Lookup, Ascii, DecodeTasks, ToInt, Converts, DescribeTasks;
    KeysSpell();
    var id, tasks := Comparing.Lookup(v.entries, ID).value, Comparing.Lookup(v.entries, TASKS).value;
    var k: nat :| Comparing.FirstWith(v.entries, ID, k) && id == v.entries[k].value;
    var t: nat :| Comparing.FirstWith(v.entries, TASKS, t) && tasks == v.entries[t].value;
    ConvertsOnce(id.i, ToInt(id.i));
    TasksLaw(tasks.items);
  }

  lemma DescribedDecodes(v: Value, id: int, names: seq<bytes>)
    requires v.Obj? && DescribesJob(v.entries, id, names)
    ensures Decode(v).Some? && Decode(v).value.id == id && Decode(v).value.names == names
  {
    hide Comparing.CString, Comparing.Lookup, Ascii, DecodeTasks, ToInt, Converts, DescribeTasks;
    KeysSpell();
    var k: nat :| Comparing.FirstWith(v.entries, ID, k) && v.entries[k].value.Integer?
        && Converts(v.entries[k].value.i, id);
    var t: nat :| Comparing.FirstWith(v.entries, TASKS, t) && v.entries[t].value.Arr?
      && DescribeTasks(v.entries[t].value.items, names);
    Comparing.LookupFirst(v.entries, ID, k);
    Comparing.LookupFirst(v.entries, TASKS, t);
    ConvertsOnce(v.entries[k].value.i, id);
    TasksLaw(v.entries[t].value.items);
  }

  // The job in memory

  ghost function NamesOf(tasks: seq<Task>): (names: seq<bytes>)
    ensures |names| == |tasks| && forall k | 0 <= k < |tasks| :: names[k] == tasks[k].name
  {
    seq(|tasks|, k requires 0 <= k < |tasks| => tasks[k].name)
  }

  ghost function PlanOf(job: Job): Plan
    reads job
  {
    Plan(job.id, job.mode, job.repeating, NamesOf(job.TaskList()))
  }

  lemma {:induction false} DecodeTasksStops(items: seq<Value>, k: nat)
    requires k <= |items| && DecodeTasks(items[..k]).None?
    ensures DecodeTasks(items).None?
    decreases |items|
  {
    if k < |items| {
      assert items[..|items| - 1][..k] == items[..k];
      DecodeTasksStops(items[..|items| - 1], k);
    } else {
      assert items[..k] == items;
    }
  }

  /** job_decode */
  method DecodeJob(v: Value) returns (job: Job?)
    ensures job == null <==> Decode(v).None?
    ensures job != null ==>
      && fresh(job) && job.Valid() && job.Distinct() && Some(PlanOf(job)) == Decode(v) && AllAre(job.Statuses(), Ready)
    ensures Conforms(v, if job == null then None else Some(PlanOf(job)))
  {
    DecodeLaw(v);
    hide Comparing.Lookup, Comparing.CString, Comparing.FirstWith, Comparing.NoneWith, ToInt;
    hide DecodeTask, DecodeTasks, DecodeMode, DecodeRepeating, Job.Valid, Job.NodeAt, StatusesOf, Conforms;
    if !v.Obj? {
      return null;
    }
    var id := Comparing.ObjectGetValue(v.entries, ID);
    var tasks := Comparing.ObjectGetValue(v.entries, TASKS);
    var execMode := Comparing.ObjectGetValue(v.entries, EXEC_MODE);
    var runMode := Comparing.ObjectGetValue(v.entries, RUN_MODE);
    KeysAsCStrings();
    if id.None? || tasks.None? || !id.value.Integer? || !tasks.value.Arr? {
      return null;
    }
    job := CreateJob(ToInt(id.value.i));
    if job == null {
      return;
    }
    job.mode, job.repeating := DecodeOptions(execMode, runMode);
    var items := tasks.value.items;
    var done := AddTasks(job, items);
    if !done {
      return null;
    }
  }

  /** The modes, over the default ones: a string that names none of them changes nothing. */
  method DecodeOptions(execMode: Option<Value>, runMode: Option<Value>) returns (mode: Mode, repeating: bool)
    ensures mode == DecodeMode(execMode) && repeating == DecodeRepeating(runMode)
  {
    mode, repeating := Sequential, false;
    if execMode.Some? && execMode.value.Str? {
      var s := Comparing.CString(execMode.value.s);
      if s == PARALLEL {
        mode := Parallel;
      } else if s == SEQUENTIAL {
        mode := Sequential;
      }
    }
    if runMode.Some? && runMode.value.Str? {
      var s := Comparing.CString(runMode.value.s);
      if s == REPEAT {
        repeating := true;
      } else if s == ONCE {
        repeating := false;
      }
    }
  }

  /** The tasks that the values describe are made and added, until one cannot be. */
  method AddTasks(job: Job, items: seq<Value>) returns (done: bool)
    requires job.Valid() && job.spine == []
    modifies job`size, job`head, job`tail, job`spine
    ensures done <==> DecodeTasks(items).Some?
    ensures done ==> job.Valid() && job.Distinct() && AllAre(job.Statuses(), Ready)
    ensures done ==> NamesOf(job.TaskList()) == DecodeTasks(items).value
  {
    hide DecodeTask, Job.Valid, Job.NodeAt;
    assert items[..0] == [];
    for i := 0 to |items|
      invariant job.Valid() && job.Distinct() && AllAre(job.Statuses(), Ready) && fresh(job.spine)
      invariant Some(NamesOf(job.TaskList())) == DecodeTasks(items[..i])
    {
      assert items[..i + 1][..i] == items[..i];
      var name := DecodeTask(items[i]);
      if name.None? {
        DecodeTasksStops(items, i + 1);
        return false;
      }
      ghost var before := job.spine;
      AddNamed(job, name.value);
      assert job.spine == before + [job.spine[|before|]];
    }
    assert items[..|items|] == items;
    return true;
  }

  method AddNamed(job: Job, name: bytes)
    requires job.Valid() && job.Distinct() && AllAre(job.Statuses(), Ready)
    modifies job`size, job`head, job`tail, job`spine, job.spine
    ensures job.Valid() && job.Distinct() && AllAre(job.Statuses(), Ready)
    ensures NamesOf(job.TaskList()) == old(NamesOf(job.TaskList())) + [name]
    ensures |job.spine| == old(|job.spine|) + 1
    ensures fresh(job.spine[|job.spine| - 1]) && job.spine[..|job.spine| - 1] == old(job.spine)
  {
    hide Job.Valid, Job.NodeAt;
    var task := new Task(name);
    job.AddTask(task);
    assert forall k | 0 <= k < |job.spine| - 1 :: job.spine[k] == old(job.spine)[k];
  }
}
