/** The manager repository: MANAGER users and their zookeeper_managers
    profile rows, as operations on the store. */
module ManagerRepository {
  import opened Domain

  datatype ManagerDTO = ManagerDTO(publicId: Id, username: string, name: string)

  /** The row the joined manager queries report for the user keyed by id. */
  function ManagerRow(s: Store, id: Id): ManagerDTO
    requires id in s.users && id in s.managers
  {
    ManagerDTO(id, s.users[id].username, s.managers[id].name)
  }

  /** Whether any user, of any role, already has the username. */
  function UsernameExists(s: Store, username: string): (b: bool)
    ensures b <==> exists id :: id in s.users && s.users[id].username == username
  {
    var names := set id | id in s.users :: s.users[id].username;
    username in names
  }

  /** Inserts a MANAGER user and its profile under one public_id, both or neither. */
  function CreateManager(s: Store, username: string, passwordHash: string, publicId: Id, name: string)
    : (r: Result<(Store, Id)>)
    ensures r.Ok? <==> publicId !in s.users && publicId !in s.managers
    ensures r.Err? ==> r.error == DuplicateKey
    ensures r.Ok? ==>
              var (s', id) := r.value;
              && id == publicId
              && s'.users == s.users[publicId := User(username, passwordHash, Manager)]
              && s'.managers == s.managers[publicId := ManagerProfile(name)]
              && s' == s.(users := s'.users, managers := s'.managers)
  {
    if publicId in s.users || publicId in s.managers then
      Err(DuplicateKey)
    else
      var s' := s.(users := s.users[publicId := User(username, passwordHash, Manager)],
                   managers := s.managers[publicId := ManagerProfile(name)]);
      Ok((s', publicId))
  }

  /** Every MANAGER user that has a profile, as the joined listing reports it. */
  function ListManagers(s: Store): (r: set<ManagerDTO>)
    ensures forall d :: d in r ==>
              HasRole(s, d.publicId, Manager) && d.publicId in s.managers && d == ManagerRow(s, d.publicId)
    ensures forall id :: HasRole(s, id, Manager) && id in s.managers ==> ManagerRow(s, id) in r
  {
    set id | id in s.users && s.users[id].role == Manager && id in s.managers :: ManagerRow(s, id)
  }

  /** The manager with this public_id; a user of another role is not found. */
  function FindByPublicID(s: Store, publicId: Id): (r: Result<ManagerDTO>)
    ensures r.Ok? <==> HasRole(s, publicId, Manager) && publicId in s.managers
    ensures r.Ok? ==>
              && r.value.publicId == publicId
              && r.value.username == s.users[publicId].username
              && r.value.name == s.managers[publicId].name
    ensures r.Err? ==> r.error == NoRows
  {
    if publicId in s.users && s.users[publicId].role == Manager && publicId in s.managers then
      Ok(ManagerRow(s, publicId))
    else
      Err(NoRows)
  }

  /** Renames the profile with this public_id; nothing else changes. */
  function UpdateManager(s: Store, publicId: Id, name: string): (r: Result<Store>)
    ensures r.Ok? <==> publicId in s.managers
    ensures r.Err? ==> r.error == ManagerNotFound
    ensures r.Ok? ==>
              && r.value.managers.Keys == s.managers.Keys
              && r.value.managers[publicId].name == name
              && (forall id :: id in s.managers && id != publicId ==> r.value.managers[id] == s.managers[id])
              && r.value == s.(managers := r.value.managers)
  {
    if publicId !in s.managers then
      Err(ManagerNotFound)
    else
      Ok(s.(managers := s.managers[publicId := ManagerProfile(name)]))
  }

  /** The number of users whose role is MANAGER, with or without a profile. */
  function CountManagers(s: Store): (n: nat)
    ensures n == |ManagerIds(s)|
  {
    |ManagerIds(s)|
  }

  /** Removes a MANAGER user and its profile; any other target is not found
      and the store stays as it was. */
  function DeleteManager(s: Store, publicId: Id): (r: Result<Store>)
    ensures r.Ok? <==> HasRole(s, publicId, Manager)
    ensures r.Err? ==> r.error == NoRows
    ensures r.Ok? ==>
              && r.value.users.Keys == s.users.Keys - {publicId}
              && r.value.managers.Keys == s.managers.Keys - {publicId}
              && (forall id :: id in r.value.users ==> r.value.users[id] == s.users[id])
              && (forall id :: id in r.value.managers ==> r.value.managers[id] == s.managers[id])
              && r.value == s.(users := r.value.users, managers := r.value.managers)
  {
    if publicId in s.users && s.users[publicId].role == Manager then
      Ok(s.(users := s.users - {publicId}, managers := s.managers - {publicId}))
    else
      Err(NoRows)
  }

  /** The count is positive exactly when some MANAGER user exists. */
  lemma CountPositiveIff(s: Store)
    ensures CountManagers(s) >= 1 <==> exists id :: HasRole(s, id, Manager)
  {
    if id :| HasRole(s, id, Manager) {
      assert id in ManagerIds(s);
    }
    if CountManagers(s) >= 1 {
      var id :| id in ManagerIds(s);
      assert HasRole(s, id, Manager);
    }
  }

  /** A successful CreateManager adds exactly one to the manager count. */
  lemma CountAfterCreate(s: Store, username: string, passwordHash: string, publicId: Id, name: string)
    requires CreateManager(s, username, passwordHash, publicId, name).Ok?
    ensures CountManagers(CreateManager(s, username, passwordHash, publicId, name).value.0)
            == CountManagers(s) + 1
  {
    var s' := CreateManager(s, username, passwordHash, publicId, name).value.0;
    assert ManagerIds(s') == ManagerIds(s) + {publicId};
  }

  /** A successful DeleteManager removes exactly one from the manager count. */
  lemma CountAfterDelete(s: Store, publicId: Id)
    requires DeleteManager(s, publicId).Ok?
    ensures CountManagers(DeleteManager(s, publicId).value) == CountManagers(s) - 1
  {
    var s' := DeleteManager(s, publicId).value;
    assert ManagerIds(s') == ManagerIds(s) - {publicId};
    assert publicId in ManagerIds(s);
  }

  /** The listing is exactly the set of rows FindByPublicID would return. */
  lemma ListMatchesFind(s: Store, d: ManagerDTO)
    ensures d in ListManagers(s) <==> FindByPublicID(s, d.publicId) == Ok(d)
  {
  }

  /** After a successful CreateManager the new manager is found with the
      given username and name, and the username is taken. */
  lemma CreateThenFind(s: Store, username: string, passwordHash: string, publicId: Id, name: string)
    requires CreateManager(s, username, passwordHash, publicId, name).Ok?
    ensures var s' := CreateManager(s, username, passwordHash, publicId, name).value.0;
            && FindByPublicID(s', publicId) == Ok(ManagerDTO(publicId, username, name))
            && UsernameExists(s', username)
  {
  }

  /** A successful CreateManager adds exactly the new row to the listing. */
  lemma ListAfterCreate(s: Store, username: string, passwordHash: string, publicId: Id, name: string)
    requires CreateManager(s, username, passwordHash, publicId, name).Ok?
    ensures ListManagers(CreateManager(s, username, passwordHash, publicId, name).value.0)
            == ListManagers(s) + {ManagerDTO(publicId, username, name)}
  {
    var s' := CreateManager(s, username, passwordHash, publicId, name).value.0;
    forall d | d in ListManagers(s')
      ensures d in ListManagers(s) + {ManagerDTO(publicId, username, name)}
    {
      if d.publicId != publicId {
        assert ManagerRow(s', d.publicId) == ManagerRow(s, d.publicId);
      }
    }
    forall d | d in ListManagers(s)
      ensures d in ListManagers(s')
    {
      assert ManagerRow(s', d.publicId) == ManagerRow(s, d.publicId);
    }
  }

  /** After a successful DeleteManager the manager is no longer found. */
  lemma DeleteThenFind(s: Store, publicId: Id)
    requires DeleteManager(s, publicId).Ok?
    ensures FindByPublicID(DeleteManager(s, publicId).value, publicId) == Err(NoRows)
  {
  }
}
