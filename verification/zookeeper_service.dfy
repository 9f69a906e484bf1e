/** The zookeeper service: the username guard on Create, and the
    repository's list, lookup, rename and delete passed through. */
module ZookeeperService {
  import opened Domain
  import Repo = ZookeeperRepository

  /** Creates a zookeeper under a fresh id, unless the username is already
      used by any user; the manager id goes to the repository unchanged. */
  function Create(s: Store, username: string, passwordHash: string, name: string, managerId: Id, freshId: Id)
    : (r: Result<(Store, Repo.ZookeeperDTO)>)
    ensures UsernameTaken(s, username) ==> r == Err(UsernameAlreadyExists)
    ensures !UsernameTaken(s, username) && !HasRole(s, managerId, Manager) ==> r == Err(NoRows)
    ensures r.Ok? <==>
              && !UsernameTaken(s, username)
              && HasRole(s, managerId, Manager)
              && freshId !in s.users && freshId !in s.zookeepers
    ensures r.Ok? ==>
              var (s', dto) := r.value;
              && dto == Repo.ZookeeperDTO(freshId, username, name, "", "")
              && Repo.FindByID(s', freshId) == Ok(dto)
              && s'.users == s.users[freshId := User(username, passwordHash, Zookeeper)]
              && s'.zookeepers == s.zookeepers[freshId := ZookeeperProfile(managerId, name)]
              && s' == s.(users := s'.users, zookeepers := s'.zookeepers)
  {
    if Repo.UsernameExists(s, username) then
      Err(UsernameAlreadyExists)
    else
      var created :- Repo.Create(s, username, passwordHash, freshId, name, managerId);
      Ok((created.0, Repo.ZookeeperDTO(created.1, username, name, "", "")))
  }

  /** Every zookeeper that has a profile. */
  function List(s: Store): (r: set<Repo.ZookeeperDTO>)
    ensures forall d :: d in r <==> Repo.FindByID(s, d.publicId) == Ok(d)
  {
    var zookeepers := Repo.List(s);
    assert forall d :: d in zookeepers <==> Repo.FindByID(s, d.publicId) == Ok(d) by {
      forall d ensures d in zookeepers <==> Repo.FindByID(s, d.publicId) == Ok(d) {
        Repo.ListMatchesFind(s, d);
      }
    }
    zookeepers
  }

  /** The zookeeper with this public_id. */
  function FindByID(s: Store, publicId: Id): (r: Result<Repo.ZookeeperDTO>)
    ensures r.Ok? <==> HasRole(s, publicId, Zookeeper) && publicId in s.zookeepers
    ensures r.Ok? ==> r.value.publicId == publicId && r.value in List(s)
    ensures r.Err? ==> r.error == NoRows
  {
    Repo.FindByID(s, publicId)
  }

  /** Renames a zookeeper profile. */
  function Update(s: Store, publicId: Id, name: string): (r: Result<Store>)
    ensures r.Ok? <==> publicId in s.zookeepers
    ensures r.Err? ==> r.error == ZookeeperNotFound
    ensures r.Ok? ==>
              && r.value.zookeepers.Keys == s.zookeepers.Keys
              && r.value.zookeepers[publicId] == s.zookeepers[publicId].(name := name)
              && (forall id :: id in s.zookeepers && id != publicId ==> r.value.zookeepers[id] == s.zookeepers[id])
              && r.value == s.(zookeepers := r.value.zookeepers)
  {
    Repo.Update(s, publicId, name)
  }

  /** Deletes a zookeeper user and profile. */
  function Delete(s: Store, publicId: Id): (r: Result<Store>)
    ensures r.Ok? <==> HasRole(s, publicId, Zookeeper)
    ensures r.Err? ==> r.error == NoRows
    ensures r.Ok? ==> r.value == s.(users := s.users - {publicId}, zookeepers := s.zookeepers - {publicId})
    ensures r.Ok? ==> ManagerIds(r.value) == ManagerIds(s)
  {
    Repo.ManagersUnchanged(s, "", "", publicId, "", "");
    Repo.Delete(s, publicId)
  }

  /** A username held by a manager cannot be reused for a zookeeper. */
  lemma ManagerUsernameBlocksZookeeper(
    s: Store, managerUser: Id, passwordHash: string, name: string, managerId: Id, freshId: Id)
    requires HasRole(s, managerUser, Manager)
    ensures Create(s, s.users[managerUser].username, passwordHash, name, managerId, freshId)
            == Err(UsernameAlreadyExists)
  {
  }
}
