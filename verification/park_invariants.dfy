/** The services as one sequential state machine: every request the backend
    serves, and the invariants the service guards keep across any run of
    them. Requests are served one at a time; the check-then-insert steps of
    the services are not atomic in the running system, so nothing here holds
    for concurrent requests. */
module ParkInvariants {
  import opened Domain
  import ManagerRepository
  import ManagerService
  import ZookeeperRepository
  import ZookeeperService
  import CageService
  import AnimalService
  import TaskService

  /** One service call, with the fresh id or password hash it was given. */
  datatype Request =
    | CreateManager(username: string, passwordHash: string, name: string, freshId: Id)
    | UpdateManager(publicId: Id, name: string)
    | DeleteManager(requesterId: Id, targetId: Id)
    | CreateZookeeper(username: string, passwordHash: string, name: string, managerId: Id, freshId: Id)
    | UpdateZookeeper(publicId: Id, name: string)
    | DeleteZookeeper(publicId: Id)
    | CreateCage(code: string, location: string, freshId: Id)
    | UpdateCage(publicId: Id, code: string, location: string)
    | DeleteCage(publicId: Id)
    | CreateAnimal(name: string, species: string, cageId: Id, dateOfBirth: Option<Date>, freshId: Id)
    | UpdateAnimal(publicId: Id, name: string, species: string, cageId: Id, dateOfBirth: Option<Date>)
    | DeleteAnimal(publicId: Id)
    | CreateTask(title: string, description: Option<string>, managerId: Id, zookeeperId: Id,
                 animalId: Option<Id>, dueDate: Option<Date>, freshId: Id, columnDefault: TaskStatus)
    | UpdateTaskStatus(publicId: Id, status: TaskStatus)
    | DeleteTask(publicId: Id)

  /** The store after a create: the new store on success, the old one on failure. */
  function AfterCreate<T>(s: Store, r: Result<(Store, T)>): Store
  {
    if r.Ok? then r.value.0 else s
  }

  /** The store after an update or delete: the new store on success, the old one on failure. */
  function AfterChange(s: Store, r: Result<Store>): Store
  {
    if r.Ok? then r.value else s
  }

  /** The store after serving one request. A cage update runs the
      service's Update as written, whose duplicate-code check also matches
      the cage's own code; the corrected check keeps the invariant as well
      (CageService.UpdatesKeepCodesUnique). */
  function Serve(s: Store, req: Request): Store
  {
    match req
    case CreateManager(u, h, n, id) => AfterCreate(s, ManagerService.Create(s, u, h, n, id))
    case UpdateManager(id, n) => AfterChange(s, ManagerService.Update(s, id, n))
    case DeleteManager(rq, t) => AfterChange(s, ManagerService.Delete(s, rq, t))
    case CreateZookeeper(u, h, n, m, id) => AfterCreate(s, ZookeeperService.Create(s, u, h, n, m, id))
    case UpdateZookeeper(id, n) => AfterChange(s, ZookeeperService.Update(s, id, n))
    case DeleteZookeeper(id) => AfterChange(s, ZookeeperService.Delete(s, id))
    case CreateCage(c, l, id) => AfterCreate(s, CageService.Create(s, c, l, id))
    case UpdateCage(id, c, l) => AfterChange(s, CageService.Update(s, id, c, l))
    case DeleteCage(id) => AfterChange(s, CageService.Delete(s, id))
    case CreateAnimal(n, sp, c, d, id) => AfterCreate(s, AnimalService.Create(s, n, sp, c, d, id))
    case UpdateAnimal(id, n, sp, c, d) => AfterChange(s, AnimalService.Update(s, id, n, sp, c, d))
    case DeleteAnimal(id) => AfterChange(s, AnimalService.Delete(s, id))
    case CreateTask(t, d, m, z, a, due, id, st) => AfterCreate(s, TaskService.Create(s, t, d, m, z, a, due, id, st))
    case UpdateTaskStatus(id, st) => AfterChange(s, TaskService.UpdateStatus(s, id, st))
    case DeleteTask(id) => AfterChange(s, TaskService.Delete(s, id))
  }

  /** The store after serving the requests in order. */
  function Run(s: Store, reqs: seq<Request>): Store
    decreases |reqs|
  {
    if |reqs| == 0 then s else Run(Serve(s, reqs[0]), reqs[1..])
  }

  /** Usernames are unique across all roles, cage codes are unique, and at
      least one MANAGER user exists. */
  predicate Invariant(s: Store)
  {
    && UniqueUsernames(s)
    && UniqueCageCodes(s)
    && ManagerRepository.CountManagers(s) >= 1
  }

  /** A store whose users keep their rows, apart from one new user whose
      username nobody had, still has unique usernames. */
  lemma AddingFreshUsernameKeepsUnique(s: Store, s': Store, id: Id)
    requires UniqueUsernames(s)
    requires s'.users.Keys == s.users.Keys + {id} && id !in s.users
    requires forall k :: k in s.users ==> s'.users[k] == s.users[k]
    requires !UsernameTaken(s, s'.users[id].username)
    ensures UniqueUsernames(s')
  {
    forall a, b | a in s'.users && b in s'.users && a != b
      ensures s'.users[a].username != s'.users[b].username
    {
      if a == id {
        assert b in s.users;
      } else if b == id {
        assert a in s.users;
      }
    }
  }

  /** A step that leaves users and cages alone keeps the invariant. */
  lemma SameUsersAndCagesKeepInvariant(s: Store, s': Store)
    requires Invariant(s)
    requires s'.users == s.users && s'.cages == s.cages
    ensures Invariant(s')
  {
    assert ManagerIds(s') == ManagerIds(s);
  }

  /** Renaming a manager or a zookeeper touches only profiles. */
  lemma RenameKeepsInvariant(s: Store, req: Request)
    requires Invariant(s) && (req.UpdateManager? || req.UpdateZookeeper?)
    ensures Invariant(Serve(s, req))
  {
    SameUsersAndCagesKeepInvariant(s, Serve(s, req));
  }

  /** Animal requests touch only animals. */
  lemma AnimalRequestKeepsInvariant(s: Store, req: Request)
    requires Invariant(s) && (req.CreateAnimal? || req.UpdateAnimal? || req.DeleteAnimal?)
    ensures Invariant(Serve(s, req))
  {
    SameUsersAndCagesKeepInvariant(s, Serve(s, req));
  }

  /** Task requests touch only tasks. */
  lemma TaskRequestKeepsInvariant(s: Store, req: Request)
    requires Invariant(s) && (req.CreateTask? || req.UpdateTaskStatus? || req.DeleteTask?)
    ensures Invariant(Serve(s, req))
  {
    SameUsersAndCagesKeepInvariant(s, Serve(s, req));
  }

  /** Creating a manager adds a user with an unused username and one more manager. */
  lemma CreateManagerKeepsInvariant(s: Store, req: Request)
    requires Invariant(s) && req.CreateManager?
    ensures Invariant(Serve(s, req))
  {
    var r := ManagerService.Create(s, req.username, req.passwordHash, req.name, req.freshId);
    if r.Ok? {
      var s' := r.value.0;
      var c := ManagerRepository.CreateManager(s, req.username, req.passwordHash, req.freshId, req.name);
      assert c.Ok? && c.value.0 == s';
      AddingFreshUsernameKeepsUnique(s, s', req.freshId);
      ManagerRepository.CountAfterCreate(s, req.username, req.passwordHash, req.freshId, req.name);
    }
  }

  /** Deleting a manager keeps another one and removes a user without adding any. */
  lemma DeleteManagerKeepsInvariant(s: Store, req: Request)
    requires Invariant(s) && req.DeleteManager?
    ensures Invariant(Serve(s, req))
  {
    var r := ManagerService.Delete(s, req.requesterId, req.targetId);
    if r.Ok? {
      ManagerService.DeleteKeepsAManager(s, req.requesterId, req.targetId);
      assert forall k :: k in r.value.users ==> r.value.users[k] == s.users[k];
    }
  }

  /** Creating a zookeeper adds a user with an unused username and no manager. */
  lemma CreateZookeeperKeepsInvariant(s: Store, req: Request)
    requires Invariant(s) && req.CreateZookeeper?
    ensures Invariant(Serve(s, req))
  {
    var r := ZookeeperService.Create(s, req.username, req.passwordHash, req.name, req.managerId, req.freshId);
    if r.Ok? {
      var s' := r.value.0;
      var c := ZookeeperRepository.Create(s, req.username, req.passwordHash, req.freshId, req.name, req.managerId);
      assert c.Ok? && c.value.0 == s';
      AddingFreshUsernameKeepsUnique(s, s', req.freshId);
      ZookeeperRepository.ManagersUnchanged(s, req.username, req.passwordHash, req.freshId, req.name, req.managerId);
    }
  }

  /** Deleting a zookeeper removes a user and no manager. */
  lemma DeleteZookeeperKeepsInvariant(s: Store, req: Request)
    requires Invariant(s) && req.DeleteZookeeper?
    ensures Invariant(Serve(s, req))
  {
    var r := ZookeeperService.Delete(s, req.publicId);
    if r.Ok? {
      var c := ZookeeperRepository.Delete(s, req.publicId);
      assert c == r;
      assert forall k :: k in r.value.users ==> r.value.users[k] == s.users[k];
    }
  }

  /** Cage requests leave users alone and keep codes unique. */
  lemma CageRequestKeepsInvariant(s: Store, req: Request)
    requires Invariant(s) && (req.CreateCage? || req.UpdateCage? || req.DeleteCage?)
    ensures Invariant(Serve(s, req))
  {
    if req.CreateCage? {
      CageService.CreateKeepsCodesUnique(s, req.code, req.location, req.freshId);
    } else if req.UpdateCage? {
      CageService.UpdatesKeepCodesUnique(s, req.publicId, req.code, req.location);
    }
    assert Serve(s, req).users == s.users;
    assert ManagerIds(Serve(s, req)) == ManagerIds(s);
  }

  /** Serving any request keeps the invariant. */
  lemma ServeKeepsInvariant(s: Store, req: Request)
    requires Invariant(s)
    ensures Invariant(Serve(s, req))
  {
    if req.CreateManager? {
      CreateManagerKeepsInvariant(s, req);
    } else if req.DeleteManager? {
      DeleteManagerKeepsInvariant(s, req);
    } else if req.CreateZookeeper? {
      CreateZookeeperKeepsInvariant(s, req);
    } else if req.DeleteZookeeper? {
      DeleteZookeeperKeepsInvariant(s, req);
    } else if req.UpdateManager? || req.UpdateZookeeper? {
      RenameKeepsInvariant(s, req);
    } else if req.CreateCage? || req.UpdateCage? || req.DeleteCage? {
      CageRequestKeepsInvariant(s, req);
    } else if req.CreateAnimal? || req.UpdateAnimal? || req.DeleteAnimal? {
      AnimalRequestKeepsInvariant(s, req);
    } else {
      TaskRequestKeepsInvariant(s, req);
    }
  }

  /** Any sequential run of requests from a store that satisfies the
      invariant ends in one that does: usernames and cage codes stay unique
      and the last manager is never removed. */
  lemma {:induction false} RunKeepsInvariant(s: Store, reqs: seq<Request>)
    requires Invariant(s)
    ensures Invariant(Run(s, reqs))
    decreases |reqs|
  {
    if |reqs| > 0 {
      ServeKeepsInvariant(s, reqs[0]);
      RunKeepsInvariant(Serve(s, reqs[0]), reqs[1..]);
    }
  }
}
