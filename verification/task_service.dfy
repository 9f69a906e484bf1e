/** The task service: Create assembles the repository input around a fresh
    public_id; listing, status change and delete pass through. The listing
    handler's choice between the two listings is modelled here too. */
module TaskService {
  import opened Domain
  import Repo = TaskRepository

  /** The manager, zookeeper and animal a new task names all resolve. */
  predicate References(s: Store, managerId: Id, zookeeperId: Id, animalId: Option<Id>)
  {
    HasRole(s, managerId, Manager) && HasRole(s, zookeeperId, Zookeeper) && Repo.AnimalResolves(s, animalId)
  }

  /** Creates a task under a fresh id, forwarding every other field as
      given; the status is the column default the schema supplies. */
  function Create(
    s: Store, title: string, description: Option<string>, managerId: Id, zookeeperId: Id,
    animalId: Option<Id>, dueDate: Option<Date>, freshId: Id, columnDefault: TaskStatus)
    : (r: Result<(Store, Id)>)
    ensures !References(s, managerId, zookeeperId, animalId) ==> r == Err(NoRows)
    ensures r.Ok? <==> References(s, managerId, zookeeperId, animalId) && freshId !in s.tasks
    ensures r.Ok? ==>
              var (s', id) := r.value;
              && id == freshId
              && s'.tasks == s.tasks[freshId := Task(title, description, managerId, zookeeperId, animalId,
                                                     columnDefault, dueDate)]
              && s' == s.(tasks := s'.tasks)
  {
    Repo.Create(s, Repo.TaskCreateInput(freshId, title, description, managerId, zookeeperId, animalId, dueDate),
                columnDefault)
  }

  /** The tasks given by this manager. */
  function ListByManager(s: Store, managerId: Id): (r: set<Repo.TaskDTO>)
    ensures forall d :: d in r <==> d.publicId in s.tasks && Repo.GivenBy(s, d.publicId, managerId)
                                    && d == Repo.TaskRow(s, d.publicId)
  {
    Repo.ListByManager(s, managerId)
  }

  /** The tasks assigned to this zookeeper. */
  function ListByZookeeper(s: Store, zookeeperId: Id): (r: set<Repo.TaskDTO>)
    ensures forall d :: d in r <==> d.publicId in s.tasks && Repo.AssignedTo(s, d.publicId, zookeeperId)
                                    && d == Repo.TaskRow(s, d.publicId)
  {
    Repo.ListByZookeeper(s, zookeeperId)
  }

  /** Sets a task's status. */
  function UpdateStatus(s: Store, publicId: Id, status: TaskStatus): (r: Result<Store>)
    ensures r.Ok? <==> publicId in s.tasks
    ensures r.Err? ==> r.error == TaskNotFound
    ensures r.Ok? ==> r.value == s.(tasks := s.tasks[publicId := s.tasks[publicId].(status := status)])
  {
    Repo.UpdateStatus(s, publicId, status)
  }

  /** Deletes a task. */
  function Delete(s: Store, publicId: Id): (r: Result<Store>)
    ensures r.Ok? <==> publicId in s.tasks
    ensures r.Err? ==> r.error == TaskNotFound
    ensures r.Ok? ==> r.value == s.(tasks := s.tasks - {publicId})
  {
    Repo.Delete(s, publicId)
  }

  /** The listing handler: a caller whose role claim is "MANAGER" sees the
      tasks they gave; any other caller sees the tasks assigned to them. */
  function ListForCaller(s: Store, userId: Id, role: string): (r: set<Repo.TaskDTO>)
    ensures role == RoleName(Manager) ==>
              forall d :: d in r <==> Repo.GivenBy(s, d.publicId, userId) && d == Repo.TaskRow(s, d.publicId)
    ensures role != RoleName(Manager) ==>
              forall d :: d in r <==> Repo.AssignedTo(s, d.publicId, userId) && d == Repo.TaskRow(s, d.publicId)
  {
    if role == "MANAGER" then ListByManager(s, userId) else ListByZookeeper(s, userId)
  }

  /** A zookeeper never sees a task assigned to someone else, and a
      manager never sees a task given by another manager. */
  lemma CallersSeeOnlyTheirOwnTasks(s: Store, userId: Id, otherId: Id, role: string, d: Repo.TaskDTO)
    requires d in ListForCaller(s, userId, role)
    requires userId != otherId
    ensures d !in ListForCaller(s, otherId, role)
  {
  }
}
