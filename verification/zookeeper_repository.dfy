/** The zookeeper repository: ZOOKEEPER users and their zookeepers profile
    rows, each linked to a MANAGER user. */
module ZookeeperRepository {
  import opened Domain

  /** The listing and lookup queries read only public_id, username and name,
      so managerId and managerName stay empty in every row they report. */
  datatype ZookeeperDTO = ZookeeperDTO(publicId: Id, username: string, name: string, managerId: Id, managerName: string)

  /** The row the joined zookeeper queries report for the user keyed by id. */
  function ZookeeperRow(s: Store, id: Id): ZookeeperDTO
    requires id in s.users && id in s.zookeepers
  {
    ZookeeperDTO(id, s.users[id].username, s.zookeepers[id].name, "", "")
  }

  /** Whether any user, of any role, already has the username. */
  function UsernameExists(s: Store, username: string): (b: bool)
    ensures b <==> UsernameTaken(s, username)
  {
    var names := set id | id in s.users :: s.users[id].username;
    username in names
  }

  /** Inserts a ZOOKEEPER user and its profile linked to the given manager,
      after checking that the manager id names a MANAGER user. */
  function Create(s: Store, username: string, passwordHash: string, publicId: Id, name: string, managerId: Id)
    : (r: Result<(Store, Id)>)
    ensures !HasRole(s, managerId, Manager) ==> r == Err(NoRows)
    ensures r.Ok? <==> HasRole(s, managerId, Manager) && publicId !in s.users && publicId !in s.zookeepers
    ensures HasRole(s, managerId, Manager) && r.Err? ==> r.error == DuplicateKey
    ensures r.Ok? ==>
              var (s', id) := r.value;
              && id == publicId
              && s'.users == s.users[publicId := User(username, passwordHash, Zookeeper)]
              && s'.zookeepers == s.zookeepers[publicId := ZookeeperProfile(managerId, name)]
              && s' == s.(users := s'.users, zookeepers := s'.zookeepers)
  {
    if !(managerId in s.users && s.users[managerId].role == Manager) then
      Err(NoRows)
    else if publicId in s.users || publicId in s.zookeepers then
      Err(DuplicateKey)
    else
      var s' := s.(users := s.users[publicId := User(username, passwordHash, Zookeeper)],
                   zookeepers := s.zookeepers[publicId := ZookeeperProfile(managerId, name)]);
      Ok((s', publicId))
  }

  /** Every ZOOKEEPER user that has a profile, as the joined listing reports it. */
  function List(s: Store): (r: set<ZookeeperDTO>)
    ensures forall d :: d in r ==>
              HasRole(s, d.publicId, Zookeeper) && d.publicId in s.zookeepers && d == ZookeeperRow(s, d.publicId)
    ensures forall id :: HasRole(s, id, Zookeeper) && id in s.zookeepers ==> ZookeeperRow(s, id) in r
  {
    set id | id in s.users && s.users[id].role == Zookeeper && id in s.zookeepers :: ZookeeperRow(s, id)
  }

  /** The zookeeper with this public_id; a user of another role is not found. */
  function FindByID(s: Store, publicId: Id): (r: Result<ZookeeperDTO>)
    ensures r.Ok? <==> HasRole(s, publicId, Zookeeper) && publicId in s.zookeepers
    ensures r.Ok? ==>
              && r.value.publicId == publicId
              && r.value.username == s.users[publicId].username
              && r.value.name == s.zookeepers[publicId].name
              && r.value.managerId == "" && r.value.managerName == ""
    ensures r.Err? ==> r.error == NoRows
  {
    if publicId in s.users && s.users[publicId].role == Zookeeper && publicId in s.zookeepers then
      Ok(ZookeeperRow(s, publicId))
    else
      Err(NoRows)
  }

  /** Renames the profile with this public_id, keeping its manager link. */
  function Update(s: Store, publicId: Id, name: string): (r: Result<Store>)
    ensures r.Ok? <==> publicId in s.zookeepers
    ensures r.Err? ==> r.error == ZookeeperNotFound
    ensures r.Ok? ==>
              && r.value.zookeepers.Keys == s.zookeepers.Keys
              && r.value.zookeepers[publicId].name == name
              && r.value.zookeepers[publicId].managerId == s.zookeepers[publicId].managerId
              && (forall id :: id in s.zookeepers && id != publicId ==> r.value.zookeepers[id] == s.zookeepers[id])
              && r.value == s.(zookeepers := r.value.zookeepers)
  {
    if publicId !in s.zookeepers then
      Err(ZookeeperNotFound)
    else
      Ok(s.(zookeepers := s.zookeepers[publicId := s.zookeepers[publicId].(name := name)]))
  }

  /** Removes a ZOOKEEPER user and its profile; any other target is not found
      and the store stays as it was. */
  function Delete(s: Store, publicId: Id): (r: Result<Store>)
    ensures r.Ok? <==> HasRole(s, publicId, Zookeeper)
    ensures r.Err? ==> r.error == NoRows
    ensures r.Ok? ==>
              && r.value.users.Keys == s.users.Keys - {publicId}
              && r.value.zookeepers.Keys == s.zookeepers.Keys - {publicId}
              && (forall id :: id in r.value.users ==> r.value.users[id] == s.users[id])
              && (forall id :: id in r.value.zookeepers ==> r.value.zookeepers[id] == s.zookeepers[id])
              && r.value == s.(users := r.value.users, zookeepers := r.value.zookeepers)
  {
    if publicId in s.users && s.users[publicId].role == Zookeeper then
      Ok(s.(users := s.users - {publicId}, zookeepers := s.zookeepers - {publicId}))
    else
      Err(NoRows)
  }

  /** The listing is exactly the set of rows FindByID would return. */
  lemma ListMatchesFind(s: Store, d: ZookeeperDTO)
    ensures d in List(s) <==> FindByID(s, d.publicId) == Ok(d)
  {
  }

  /** After a successful Create the zookeeper is found under its id, with the
      given username and name, and its profile is linked to the manager. */
  lemma CreateThenFind(s: Store, username: string, passwordHash: string, publicId: Id, name: string, managerId: Id)
    requires Create(s, username, passwordHash, publicId, name, managerId).Ok?
    ensures var s' := Create(s, username, passwordHash, publicId, name, managerId).value.0;
            && FindByID(s', publicId) == Ok(ZookeeperDTO(publicId, username, name, "", ""))
            && s'.zookeepers[publicId].managerId == managerId
            && HasRole(s', managerId, Manager)
  {
  }

  /** Creating or deleting a zookeeper leaves the set of MANAGER users as it was. */
  lemma ManagersUnchanged(s: Store, username: string, passwordHash: string, publicId: Id, name: string, managerId: Id)
    ensures Create(s, username, passwordHash, publicId, name, managerId).Ok? ==>
              ManagerIds(Create(s, username, passwordHash, publicId, name, managerId).value.0) == ManagerIds(s)
    ensures Delete(s, publicId).Ok? ==> ManagerIds(Delete(s, publicId).value) == ManagerIds(s)
  {
  }

  /** After a successful Delete the zookeeper is no longer found. */
  lemma DeleteThenFind(s: Store, publicId: Id)
    requires Delete(s, publicId).Ok?
    ensures FindByID(Delete(s, publicId).value, publicId) == Err(NoRows)
  {
  }
}
