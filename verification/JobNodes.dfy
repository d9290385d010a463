/** job_encode as it builds its tree of nodes, and a job's whole trip: nodes, octets, both passes of the parser, a
    job. */
module JobNodes {
  import opened Bytes
  import opened Values
  import opened Printing
  import opened Walking
  import opened Freeing
  import opened Building
  import opened Jobs
  import opened JobTexts
  import opened Messages
  import opened Tasks
  import JobAttempts = Attempts

  /** json_string_new */
  method NewString(s: bytes) returns (n: Node)
    ensures fresh(n) && Built(n, Single(n, Str(s))) && n.parent == null
  {
    n := new Node(StringKind, 0);
    n.str := s;
  }

  /** json_integer_new */
  method NewInteger(i: int) returns (n: Node)
    ensures fresh(n) && Built(n, Single(n, Integer(i))) && n.parent == null
  {
    n := new Node(IntegerKind, 0);
    n.integer := i;
  }

  /** json_array_new */
  method NewArray(room: nat) returns (n: Node)
    ensures fresh(n) && Built(n, Single(n, Arr([]))) && n.parent == null
  {
    n := new Node(ArrayKind, room);
  }

  /** json_object_new */
  method NewObject(room: nat) returns (n: Node)
    ensures fresh(n) && Built(n, Single(n, Obj([]))) && n.parent == null
  {
    n := new Node(ObjectKind, room);
  }

  function Single(n: Node, v: Value): map<Node, Role> {
    map[n := Role(v, 0)]
  }

  /** json_object_push_string */
  method PushString(into: Node, name: bytes, s: bytes, ghost h: map<Node, Role>) returns (ghost g: map<Node, Role>)
    requires Built(into, h) && h[into].val.Obj?
    modifies into`additionalLength, into`capacity, into`children, into`names, into`length, into`isBuilderValue
    ensures Built(into, g) && g[into].val == Obj(h[into].val.entries + [Entry(name, Str(s))])
    ensures forall n | n in g :: n in h || fresh(n)
  {
    hide Built;
    InBuilt(into, h);
    var value := NewString(s);
    ObjectPush(into, name, value, h, Single(value, Str(s)));
    g := Grafted(into, h, Obj(h[into].val.entries + [Entry(name, Str(s))]), Single(value, Str(s)));
  }

  /** json_object_push_integer */
  method PushInteger(into: Node, name: bytes, i: int, ghost h: map<Node, Role>) returns (ghost g: map<Node, Role>)
    requires Built(into, h) && h[into].val.Obj?
    modifies into`additionalLength, into`capacity, into`children, into`names, into`length, into`isBuilderValue
    ensures Built(into, g) && g[into].val == Obj(h[into].val.entries + [Entry(name, Integer(i))])
    ensures forall n | n in g :: n in h || fresh(n)
  {
    hide Built;
    InBuilt(into, h);
    var value := NewInteger(i);
    ObjectPush(into, name, value, h, Single(value, Integer(i)));
    g := Grafted(into, h, Obj(h[into].val.entries + [Entry(name, Integer(i))]), Single(value, Integer(i)));
  }

  /** task_encode */
  method EncodeTaskNodes(name: bytes) returns (node: Node, ghost g: map<Node, Role>)
    ensures Built(node, g) && node.parent == null && node in g && g[node].val == EncodeTask(name)
    ensures forall n | n in g :: fresh(n)
  {
    hide Built;
    node := NewObject(0);
    InBuilt(node, Single(node, Obj([])));
    g := PushString(node, NAME, name, Single(node, Obj([])));
    InBuilt(node, g);
    assert [] + [Entry(NAME, Str(name))] == [Entry(NAME, Str(name))];
  }

  /** The array of the tasks. */
  method EncodeListNodes(job: Job) returns (arr: Node, ghost g: map<Node, Role>)
    requires job.Valid()
    ensures Built(arr, g) && arr.parent == null && arr in g && g[arr].val == Arr(EncodeTasks(NamesOf(job.TaskList())))
    ensures forall n | n in g :: fresh(n)
  {
    hide Built, EncodeTask, Job.Valid, Job.NodeAt;
    ghost var names := NamesOf(job.TaskList());
    ghost var items := EncodeTasks(names);
    arr := NewArray(0);
    g := Single(arr, Arr([]));
    var curr := job.head;
    ghost var i := 0;
    job.Links(0);
    while curr != null
      invariant i <= job.size && curr == job.NodeAt(i)
      invariant Built(arr, g) && arr.parent == null && arr in g && g[arr].val == Arr(items[..i])
      invariant forall n | n in g :: fresh(n)
      decreases job.size - i
    {
      job.Links(i);
      var val;
      ghost var twig;
      val, twig := EncodeTaskNodes(curr.task.name);
      ArrayPush(arr, val, g, twig);
      assert items[..i] + [twig[val].val] == items[..i + 1];
      g := Grafted(arr, g, Arr(items[..i + 1]), twig);
      curr := curr.next;
      i := i + 1;
    }
    job.Links(i);
    assert items[..i] == items;
  }

  /** The job's object up to its modes. */
  method EncodeHeadNodes(job: Job) returns (obj: Node, ghost g: map<Node, Role>)
    ensures Built(obj, g) && obj.parent == null && obj in g && g[obj].val == Obj(Encode(PlanOf(job)).entries[..3])
    ensures forall n | n in g :: fresh(n)
  {
    hide Built, EncodeTasks;
    var mode := if job.mode == JobAttempts.Parallel then PARALLEL else SEQUENTIAL;
    var run := if job.repeating then REPEAT else ONCE;
    obj := NewObject(0);
    g := Single(obj, Obj([]));
    InBuilt(obj, g);
    g := PushInteger(obj, ID, job.id, g);
    InBuilt(obj, g);
    g := PushString(obj, EXEC_MODE, mode, g);
    InBuilt(obj, g);
    g := PushString(obj, RUN_MODE, run, g);
    InBuilt(obj, g);
  }

  /** job_encode */
  method EncodeJob(job: Job) returns (obj: Node, ghost g: map<Node, Role>)
    requires job.Valid()
    ensures Built(obj, g) && obj.parent == null && obj in g && g[obj].val == Encode(PlanOf(job))
    ensures forall n | n in g :: fresh(n)
  {
    hide Built, EncodeTasks;
    var arr;
    ghost var twig;
    obj, g := EncodeHeadNodes(job);
    arr, twig := EncodeListNodes(job);
    ghost var entries := Encode(PlanOf(job)).entries;
    ObjectPush(obj, TASKS, arr, g, twig);
    assert entries[..3] + [Entry(TASKS, twig[arr].val)] == entries;
    g := Grafted(obj, g, Obj(entries), twig);
  }

  /** A job's whole trip. When its encoding fits into the buffer, the receiver gets a job with the same id, modes and
      task names in order, all its tasks new, distinct and ready; otherwise it gets none. */
  method SendJob(job: Job, buf: array<byte>, o: Options) returns (received: Job?)
    requires job.Valid() && Admissible(PlanOf(job)) && o.indentSize >= 0 && buf.Length == BUFLEN + 1
    modifies buf
    ensures received != null <==> Fits(Encode(PlanOf(job)), o)
    ensures received != null ==>
      && fresh(received) && received.Valid() && received.Distinct() && PlanOf(received) == old(PlanOf(job))
      && AllAre(received.Statuses(), Ready)
  {
    hide Job.Valid, Job.Distinct, Job.NodeAt, Admissible, Encode, Decode, Fits, Family, Rooted, AtRest, Roomy, Plain;
    ghost var p := PlanOf(job);
    EncodePlain(p);
    DecodeEncode(p);
    var root;
    ghost var g;
    root, g := EncodeJob(job);
    BuiltTree(root, g);
    var value := SendAndReceive(buf, root, o, g);
    var freed := BuilderFree(root, g);
    if value.None? {
      return null;
    }
    received := DecodeJob(value.value);
  }

  lemma BuiltTree(root: Node, h: map<Node, Role>)
    requires Built(root, h) && root.parent == null
    ensures Tree(root, h) && Rooted(root, h) && AtRest(h)
  {
  }
}
