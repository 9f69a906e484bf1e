/** The park's persistent state as the repositories see it: one map per
    table, keyed by the row's public_id, plus the error and result types the
    repositories and services return. */
module Domain {

  /** A public_id (a UUID string in the running system). */
  type Id = string

  /** A task status. The repository writes whatever string it is given;
      PENDING, IN_PROGRESS and DONE are the values the system names. */
  type TaskStatus = string

  /** A date or timestamp, kept opaque: its parsing is not part of this model. */
  type Date = string

  const StatusPending: TaskStatus := "PENDING"
  const StatusInProgress: TaskStatus := "IN_PROGRESS"
  const StatusDone: TaskStatus := "DONE"

  datatype Option<+T> = None | Some(value: T)

  datatype Role = Manager | Zookeeper

  /** The text stored in the users.role column. */
  function RoleName(r: Role): string
  {
    match r
    case Manager => "MANAGER"
    case Zookeeper => "ZOOKEEPER"
  }

  datatype User = User(username: string, passwordHash: string, role: Role)

  /** A row of zookeeper_managers, keyed by the public_id it shares with its user. */
  datatype ManagerProfile = ManagerProfile(name: string)

  /** A row of zookeepers, keyed by the public_id it shares with its user;
      managerId is the public_id of the MANAGER user it is linked to. */
  datatype ZookeeperProfile = ZookeeperProfile(managerId: Id, name: string)

  datatype Cage = Cage(code: string, location: string)

  /** An animal row; cageId is the public_id of its cage. */
  datatype Animal = Animal(name: string, species: string, cageId: Id, dateOfBirth: Option<Date>)

  /** A task row. The insert never names the status column, so a new task
      holds whatever that column's database default is; the listings scan the
      column into a plain string, so every listed task has a status. */
  datatype Task = Task(
    title: string,
    description: Option<string>,
    managerId: Id,
    zookeeperId: Id,
    animalId: Option<Id>,
    status: TaskStatus,
    dueDate: Option<Date>)

  datatype Store = Store(
    users: map<Id, User>,
    managers: map<Id, ManagerProfile>,
    zookeepers: map<Id, ZookeeperProfile>,
    cages: map<Id, Cage>,
    animals: map<Id, Animal>,
    tasks: map<Id, Task>)

  const EmptyStore := Store(map[], map[], map[], map[], map[], map[])

  /** The errors the repositories and services report. NoRows is the
      driver's answer to a single-row query that found nothing; DuplicateKey
      stands for the driver rejecting an insert whose public_id is taken. */
  datatype Error =
    | NoRows
    | DuplicateKey
    | UsernameAlreadyExists
    | CageCodeAlreadyExists
    | CannotDeleteYourself
    | AtLeastOneManager
    | ManagerNotFound
    | ZookeeperNotFound
    | CageNotFound
    | AnimalNotFound
    | TaskNotFound

  /** The message each error carries. */
  function Message(e: Error): string
  {
    match e
    case NoRows => "no rows in result set"
    case DuplicateKey => "duplicate key value"
    case UsernameAlreadyExists => "username already exists"
    case CageCodeAlreadyExists => "cage code already exists"
    case CannotDeleteYourself => "cannot delete yourself"
    case AtLeastOneManager => "at least one manager must exist"
    case ManagerNotFound => "manager not found"
    case ZookeeperNotFound => "zookeeper not found"
    case CageNotFound => "cage not found"
    case AnimalNotFound => "animal not found"
    case TaskNotFound => "task not found"
  }

  /** A repository or service outcome. A failure carries no store: the
      caller keeps the store it had, as a rolled-back transaction does. */
  datatype Result<+T> = Ok(value: T) | Err(error: Error) {
    predicate IsFailure() {
      Err?
    }

    function PropagateFailure<U>(): Result<U>
      requires Err?
    {
      Err(error)
    }

    function Extract(): T
      requires Ok?
    {
      value
    }
  }

  /** The user keyed by id exists and has the given role: the
      `WHERE public_id = $1 AND role = ...` lookup the repositories use. */
  predicate HasRole(s: Store, id: Id, role: Role)
  {
    id in s.users && s.users[id].role == role
  }

  /** Some user, of any role, has this username. */
  predicate UsernameTaken(s: Store, username: string)
  {
    exists id :: id in s.users && s.users[id].username == username
  }

  /** Some cage has this code. */
  predicate CodeTaken(s: Store, code: string)
  {
    exists id :: id in s.cages && s.cages[id].code == code
  }

  /** No two users share a username. */
  predicate UniqueUsernames(s: Store)
  {
    forall a, b :: a in s.users && b in s.users && a != b ==> s.users[a].username != s.users[b].username
  }

  /** No two cages share a code. */
  predicate UniqueCageCodes(s: Store)
  {
    forall a, b :: a in s.cages && b in s.cages && a != b ==> s.cages[a].code != s.cages[b].code
  }

  /** The public ids of the users whose role is MANAGER. */
  function ManagerIds(s: Store): set<Id>
  {
    set id | id in s.users && s.users[id].role == Manager
  }
}
