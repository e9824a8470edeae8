/**
 * The two filter routes of routes/filter_routes.py: the stored rows with
 * one status, or one priority, in row order; an empty result is NotFound.
 */
module FilterRoutes {
  import opened Wrappers
  import opened Errors
  import opened TaskModel
  import opened TaskSchema
  import opened TaskQuery

  const NoStatusMatchMessage := "No tasks found with that status"
  const NoPriorityMatchMessage := "No tasks found with that priority"

  /**
   * `select(Task).where(Task.status == s)` is the list query's WHERE clause
   * with only the status filter; the paging fields are not part of it.
   */
  function StatusQuery(s: Status): (q: Query)
    ensures forall t: Task :: Matches(t, q) <==> t.status == s
  {
    Query(Some(s), None, None, 0, 1, None, None)
  }

  /** `select(Task).where(Task.priority == p)`, likewise. */
  function PriorityQuery(p: Priority): (q: Query)
    ensures forall t: Task :: Matches(t, q) <==> t.priority == p
  {
    Query(None, Some(p), None, 0, 1, None, None)
  }

  /** `filter_by_status`: the rows with status `s`, or NotFound when there are none. */
  function FilterByStatus(rows: seq<Task>, s: Status): (r: Result<seq<TaskResponse>, Error>)
    requires Identified(rows)
    ensures r.Failure? <==> forall i :: 0 <= i < |rows| ==> rows[i].status != s
    ensures r.Failure? ==> r.error == NotFound(NoStatusMatchMessage)
    ensures r.Success? ==> |r.value| > 0
    ensures r.Success? ==> forall i :: 0 <= i < |r.value| ==>
      AsTask(r.value[i]) in rows && r.value[i].status == s
    ensures r.Success? ==> forall i :: 0 <= i < |rows| && rows[i].status == s ==>
      ToResponse(rows[i]) in r.value
  {
    var found := Filter(rows, StatusQuery(s));
    if found == [] then Failure(NotFound(NoStatusMatchMessage))
    else
      var rs := Responses(found);
      assert forall i :: 0 <= i < |found| ==> ToResponse(found[i]) in rs;
      Success(rs)
  }

  /** `filter_by_priority`: the rows with priority `p`, or NotFound when there are none. */
  function FilterByPriority(rows: seq<Task>, p: Priority): (r: Result<seq<TaskResponse>, Error>)
    requires Identified(rows)
    ensures r.Failure? <==> forall i :: 0 <= i < |rows| ==> rows[i].priority != p
    ensures r.Failure? ==> r.error == NotFound(NoPriorityMatchMessage)
    ensures r.Success? ==> |r.value| > 0
    ensures r.Success? ==> forall i :: 0 <= i < |r.value| ==>
      AsTask(r.value[i]) in rows && r.value[i].priority == p
    ensures r.Success? ==> forall i :: 0 <= i < |rows| && rows[i].priority == p ==>
      ToResponse(rows[i]) in r.value
  {
    var found := Filter(rows, PriorityQuery(p));
    if found == [] then Failure(NotFound(NoPriorityMatchMessage))
    else
      var rs := Responses(found);
      assert forall i :: 0 <= i < |found| ==> ToResponse(found[i]) in rs;
      Success(rs)
  }
}
