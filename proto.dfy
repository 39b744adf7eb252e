/** The two calls the computing agents make over gRPC: claim a task that is
    ready to run, and report the result of one. */
module Proto {
  import opened Wrappers
  import opened Shared
  import opened Rpn
  import opened TaskQueue

  /** The task message (OperationTime left out). */
  datatype Message = Message(id: int, arg1: string, arg2: string, operator: string, status: bool, result: real)

  /** The message sent when no task is ready: every field zero but Status false. */
  const Idle: Message := Message(0, "", "", "", false, 0.0)

  /** A task an agent may take: not done, both operands numerals. */
  predicate Available(t: Task) {
    !t.status && Complete(t)
  }

  /** The message carrying a claimed task. */
  function Offer(t: Task): Message {
    Message(t.id, t.arg1, t.arg2, [t.operator], true, t.result)
  }

  /** GetAvailableTask: nothing for an empty store; otherwise the first
      available task met in the table's order (any order), or Idle when
      there is none. The store is only read, so the same task can be handed
      out again until its result is reported. */
  method GetAvailableTask(queue: Queue) returns (r: Option<Message>)
    requires queue.Valid()
    ensures r.None? <==> queue.tasks == map[]
    ensures r.Some? && r.value.status ==>
      r.value.id in queue.tasks && Available(queue.tasks[r.value.id]) && r.value == Offer(queue.tasks[r.value.id])
    ensures r.Some? && !r.value.status ==>
      r.value == Idle && forall k :: k in queue.tasks ==> !Available(queue.tasks[k])
  {
    var tasks := queue.GetTasks();
    if |tasks| == 0 {
      return None;
    }
    var rows := tasks.Keys;
    while rows != {}
      invariant rows <= tasks.Keys
      invariant forall k :: k in tasks && k !in rows ==> !Available(tasks[k])
      decreases rows
    {
      NonEmpty(rows);
      var k :| k in rows;
      var task := tasks[k];
      var numeric1 := IsNumeric(task.arg1);
      var numeric2 := IsNumeric(task.arg2);
      if !task.status && numeric1 && numeric2 {
        var final := queue.FindTask(task.id);
        return Some(Offer(final.value));
      }
      rows := rows - {k};
    }
    return Some(Idle);
  }

  /** CompleteTask: exactly Done, and always an empty success reply. */
  method CompleteTask(queue: Queue, id: int, result: real)
    requires queue.Valid()
    modifies queue
    ensures queue.Valid()
    ensures Store(queue.tasks, queue.expressions) == AfterDone(old(Store(queue.tasks, queue.expressions)), id, result)
  {
    queue.Done(id, result);
  }
}
