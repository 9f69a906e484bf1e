/** The task repository: tasks given by a manager to a zookeeper, optionally
    about an animal. */
module TaskRepository {
  import opened Domain

  datatype TaskCreateInput = TaskCreateInput(
    publicId: Id,
    title: string,
    description: Option<string>,
    managerId: Id,
    zookeeperId: Id,
    animalId: Option<Id>,
    dueDate: Option<Date>)

  /** A listed task: zookeeper is the assignee's username and animal the
      animal's name, absent when the task names no animal or the animal row
      is gone. */
  datatype TaskDTO = TaskDTO(
    publicId: Id,
    title: string,
    description: Option<string>,
    status: TaskStatus,
    dueDate: Option<Date>,
    zookeeper: string,
    animal: Option<string>)

  /** The animal name the left join reports for a task. */
  function AnimalName(s: Store, t: Task): Option<string>
  {
    match t.animalId
    case None => None
    case Some(a) => if a in s.animals then Some(s.animals[a].name) else None
  }

  /** The row the task listings report for the task keyed by id. */
  function TaskRow(s: Store, id: Id): TaskDTO
    requires id in s.tasks && s.tasks[id].zookeeperId in s.users
  {
    var t := s.tasks[id];
    TaskDTO(id, t.title, t.description, t.status, t.dueDate, s.users[t.zookeeperId].username, AnimalName(s, t))
  }

  /** The animal reference, when there is one, names an existing animal. */
  predicate AnimalResolves(s: Store, animalId: Option<Id>)
  {
    animalId.None? || animalId.value in s.animals
  }

  /** Checks that the manager id names a MANAGER user, the zookeeper id a
      ZOOKEEPER user and the animal id, if any, an animal, then inserts the
      task; any failed check inserts nothing. The insert leaves the status
      column out, so the row takes the column's default, which lives in the
      database schema and is the parameter columnDefault here. */
  function Create(s: Store, input: TaskCreateInput, columnDefault: TaskStatus): (r: Result<(Store, Id)>)
    ensures !HasRole(s, input.managerId, Manager) ==> r == Err(NoRows)
    ensures !HasRole(s, input.zookeeperId, Zookeeper) ==> r == Err(NoRows)
    ensures !AnimalResolves(s, input.animalId) ==> r == Err(NoRows)
    ensures r.Ok? <==>
              && HasRole(s, input.managerId, Manager)
              && HasRole(s, input.zookeeperId, Zookeeper)
              && AnimalResolves(s, input.animalId)
              && input.publicId !in s.tasks
    ensures r.Ok? ==>
              var (s', id) := r.value;
              var t := Task(input.title, input.description, input.managerId, input.zookeeperId,
                            input.animalId, columnDefault, input.dueDate);
              && id == input.publicId
              && s'.tasks == s.tasks[id := t]
              && s' == s.(tasks := s'.tasks)
  {
    if !(input.managerId in s.users && s.users[input.managerId].role == Manager) then
      Err(NoRows)
    else if !(input.zookeeperId in s.users && s.users[input.zookeeperId].role == Zookeeper) then
      Err(NoRows)
    else if input.animalId.Some? && input.animalId.value !in s.animals then
      Err(NoRows)
    else if input.publicId in s.tasks then
      Err(DuplicateKey)
    else
      var t := Task(input.title, input.description, input.managerId, input.zookeeperId,
                    input.animalId, columnDefault, input.dueDate);
      Ok((s.(tasks := s.tasks[input.publicId := t]), input.publicId))
  }

  /** Task id was given by the user managerId, and both that user's row and
      the assignee's row exist, as the manager listing's inner joins demand. */
  predicate GivenBy(s: Store, id: Id, managerId: Id)
  {
    id in s.tasks && s.tasks[id].managerId == managerId && managerId in s.users && s.tasks[id].zookeeperId in s.users
  }

  /** Task id is assigned to the user zookeeperId, whose row exists. */
  predicate AssignedTo(s: Store, id: Id, zookeeperId: Id)
  {
    id in s.tasks && s.tasks[id].zookeeperId == zookeeperId && zookeeperId in s.users
  }

  /** The tasks given by the user with this public_id. */
  function ListByManager(s: Store, managerId: Id): (r: set<TaskDTO>)
    ensures forall d :: d in r ==> GivenBy(s, d.publicId, managerId) && d == TaskRow(s, d.publicId)
    ensures forall id :: GivenBy(s, id, managerId) ==> TaskRow(s, id) in r
  {
    set id | id in s.tasks && s.tasks[id].managerId == managerId && managerId in s.users
             && s.tasks[id].zookeeperId in s.users :: TaskRow(s, id)
  }

  /** The tasks assigned to the user with this public_id, each reporting
      that user's username. No manager row is needed here. */
  function ListByZookeeper(s: Store, zookeeperId: Id): (r: set<TaskDTO>)
    ensures forall d :: d in r ==>
              && AssignedTo(s, d.publicId, zookeeperId)
              && d == TaskRow(s, d.publicId)
              && d.zookeeper == s.users[zookeeperId].username
    ensures forall id :: AssignedTo(s, id, zookeeperId) ==> TaskRow(s, id) in r
  {
    set id | id in s.tasks && s.tasks[id].zookeeperId == zookeeperId && zookeeperId in s.users :: TaskRow(s, id)
  }

  /** Sets the status of the task with this public_id; nothing else changes. */
  function UpdateStatus(s: Store, publicId: Id, status: TaskStatus): (r: Result<Store>)
    ensures r.Ok? <==> publicId in s.tasks
    ensures r.Err? ==> r.error == TaskNotFound
    ensures r.Ok? ==>
              && r.value.tasks.Keys == s.tasks.Keys
              && r.value.tasks[publicId] == s.tasks[publicId].(status := status)
              && (forall id :: id in s.tasks && id != publicId ==> r.value.tasks[id] == s.tasks[id])
              && r.value == s.(tasks := r.value.tasks)
  {
    if publicId !in s.tasks then
      Err(TaskNotFound)
    else
      Ok(s.(tasks := s.tasks[publicId := s.tasks[publicId].(status := status)]))
  }

  /** Removes the task with this public_id. */
  function Delete(s: Store, publicId: Id): (r: Result<Store>)
    ensures r.Ok? <==> publicId in s.tasks
    ensures r.Err? ==> r.error == TaskNotFound
    ensures r.Ok? ==>
              && r.value.tasks.Keys == s.tasks.Keys - {publicId}
              && (forall id :: id in r.value.tasks ==> r.value.tasks[id] == s.tasks[id])
              && r.value == s.(tasks := r.value.tasks)
  {
    if publicId !in s.tasks then
      Err(TaskNotFound)
    else
      Ok(s.(tasks := s.tasks - {publicId}))
  }

  /** A created task shows up in its manager's and its zookeeper's listings,
      reporting the zookeeper's username, the status column's default, and
      the animal's name. */
  lemma CreateThenListed(s: Store, input: TaskCreateInput, columnDefault: TaskStatus)
    requires Create(s, input, columnDefault).Ok?
    ensures var s' := Create(s, input, columnDefault).value.0;
            var row := TaskDTO(input.publicId, input.title, input.description, columnDefault, input.dueDate,
                               s.users[input.zookeeperId].username,
                               if input.animalId.Some? then Some(s.animals[input.animalId.value].name) else None);
            && row in ListByManager(s', input.managerId)
            && row in ListByZookeeper(s', input.zookeeperId)
  {
    var s' := Create(s, input, columnDefault).value.0;
    assert TaskRow(s', input.publicId) in ListByManager(s', input.managerId);
  }

  /** After UpdateStatus the task's listed row carries the new status. */
  lemma UpdateStatusThenListed(s: Store, publicId: Id, status: TaskStatus)
    requires UpdateStatus(s, publicId, status).Ok?
    requires s.tasks[publicId].zookeeperId in s.users
    ensures var s' := UpdateStatus(s, publicId, status).value;
            var row := TaskRow(s', publicId);
            && row.status == status
            && row == TaskRow(s, publicId).(status := status)
            && row in ListByZookeeper(s', s.tasks[publicId].zookeeperId)
  {
  }

  /** A deleted task is listed for nobody, and deleting it again reports
      "task not found". */
  lemma DeleteThenUnlisted(s: Store, publicId: Id, userId: Id)
    requires Delete(s, publicId).Ok?
    ensures forall d :: d in ListByManager(Delete(s, publicId).value, userId) ==> d.publicId != publicId
    ensures forall d :: d in ListByZookeeper(Delete(s, publicId).value, userId) ==> d.publicId != publicId
    ensures Delete(Delete(s, publicId).value, publicId) == Err(TaskNotFound)
  {
  }
}
