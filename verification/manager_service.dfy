/** The manager service: the business rules layered on the manager
    repository. Password hashing and public_id generation are outside the
    model, so Create receives the hash and a fresh id as parameters. */
module ManagerService {
  import opened Domain
  import Repo = ManagerRepository

  /** Creates a manager unless the username is already used by any user. */
  function Create(s: Store, username: string, passwordHash: string, name: string, freshId: Id)
    : (r: Result<(Store, Repo.ManagerDTO)>)
    ensures UsernameTaken(s, username) ==> r == Err(UsernameAlreadyExists)
    ensures r.Ok? <==> !UsernameTaken(s, username) && freshId !in s.users && freshId !in s.managers
    ensures !UsernameTaken(s, username) && r.Err? ==> r.error == DuplicateKey
    ensures r.Ok? ==>
              var (s', dto) := r.value;
              && dto == Repo.ManagerDTO(freshId, username, name)
              && Repo.FindByPublicID(s', freshId) == Ok(dto)
              && s'.users == s.users[freshId := User(username, passwordHash, Manager)]
              && s'.managers == s.managers[freshId := ManagerProfile(name)]
              && s' == s.(users := s'.users, managers := s'.managers)
  {
    if Repo.UsernameExists(s, username) then
      Err(UsernameAlreadyExists)
    else
      var created :- Repo.CreateManager(s, username, passwordHash, freshId, name);
      Ok((created.0, Repo.ManagerDTO(created.1, username, name)))
  }

  /** Every manager that has a profile. */
  function List(s: Store): (r: set<Repo.ManagerDTO>)
    ensures forall d :: d in r <==> Repo.FindByPublicID(s, d.publicId) == Ok(d)
  {
    var managers := Repo.ListManagers(s);
    assert forall d :: d in managers <==> Repo.FindByPublicID(s, d.publicId) == Ok(d) by {
      forall d ensures d in managers <==> Repo.FindByPublicID(s, d.publicId) == Ok(d) {
        Repo.ListMatchesFind(s, d);
      }
    }
    managers
  }

  /** Renames a manager profile; the repository decides whether it exists. */
  function Update(s: Store, publicId: Id, name: string): (r: Result<Store>)
    ensures r.Ok? <==> publicId in s.managers
    ensures r.Err? ==> r.error == ManagerNotFound
    ensures r.Ok? ==>
              && r.value.managers.Keys == s.managers.Keys
              && r.value.managers[publicId] == ManagerProfile(name)
              && (forall id :: id in s.managers && id != publicId ==> r.value.managers[id] == s.managers[id])
              && r.value == s.(managers := r.value.managers)
  {
    Repo.UpdateManager(s, publicId, name)
  }

  /** Deletes a manager other than the requester, as long as another manager remains. */
  function Delete(s: Store, requesterId: Id, targetId: Id): (r: Result<Store>)
    ensures requesterId == targetId ==> r == Err(CannotDeleteYourself)
    ensures requesterId != targetId && Repo.CountManagers(s) <= 1 ==> r == Err(AtLeastOneManager)
    ensures r.Ok? <==> requesterId != targetId && Repo.CountManagers(s) > 1 && HasRole(s, targetId, Manager)
    ensures requesterId != targetId && Repo.CountManagers(s) > 1 && r.Err? ==> r.error == NoRows
    ensures r.Ok? ==> r.value == s.(users := s.users - {targetId}, managers := s.managers - {targetId})
  {
    if requesterId == targetId then
      Err(CannotDeleteYourself)
    else if Repo.CountManagers(s) <= 1 then
      Err(AtLeastOneManager)
    else
      Repo.DeleteManager(s, targetId)
  }

  /** Delete never removes the last manager: from a store with at least one
      MANAGER user, a successful Delete leaves at least one. */
  lemma DeleteKeepsAManager(s: Store, requesterId: Id, targetId: Id)
    requires Repo.CountManagers(s) >= 1
    requires Delete(s, requesterId, targetId).Ok?
    ensures Repo.CountManagers(Delete(s, requesterId, targetId).value) == Repo.CountManagers(s) - 1
    ensures Repo.CountManagers(Delete(s, requesterId, targetId).value) >= 1
  {
    Repo.CountAfterDelete(s, targetId);
  }
}
