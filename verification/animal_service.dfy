/** The animal service: Create draws a fresh public_id and echoes its
    inputs back; the rest passes through to the repository. */
module AnimalService {
  import opened Domain
  import Repo = AnimalRepository

  /** Creates an animal under a fresh id in the named cage. On success the
      reply echoes the inputs with the cage's public_id; on failure it is the
      repository's error. */
  function Create(s: Store, name: string, species: string, cageId: Id, dateOfBirth: Option<Date>, freshId: Id)
    : (r: Result<(Store, Repo.AnimalDTO)>)
    ensures cageId !in s.cages ==> r == Err(NoRows)
    ensures r.Ok? <==> cageId in s.cages && freshId !in s.animals
    ensures cageId in s.cages && r.Err? ==> r.error == DuplicateKey
    ensures r.Ok? ==>
              var (s', dto) := r.value;
              && dto == Repo.AnimalDTO(freshId, name, species, cageId, dateOfBirth)
              && Repo.FindByID(s', freshId) == Ok(dto)
              && s' == s.(animals := s.animals[freshId := Animal(name, species, cageId, dateOfBirth)])
  {
    var created :- Repo.Create(s, freshId, name, species, cageId, dateOfBirth);
    Ok((created.0, Repo.AnimalDTO(created.1, name, species, cageId, dateOfBirth)))
  }

  /** Every animal whose cage exists. */
  function List(s: Store): (r: set<Repo.AnimalDTO>)
    ensures forall d :: d in r <==> Repo.FindByID(s, d.publicId) == Ok(d)
  {
    var animals := Repo.List(s);
    assert forall d :: d in animals <==> Repo.FindByID(s, d.publicId) == Ok(d) by {
      forall d ensures d in animals <==> Repo.FindByID(s, d.publicId) == Ok(d) {
        Repo.ListMatchesFind(s, d);
      }
    }
    animals
  }

  /** The animal with this public_id. */
  function FindByID(s: Store, publicId: Id): (r: Result<Repo.AnimalDTO>)
    ensures r.Ok? <==> Repo.Placed(s, publicId)
    ensures r.Ok? ==> r.value.publicId == publicId && r.value in List(s)
    ensures r.Err? ==> r.error == NoRows
  {
    Repo.FindByID(s, publicId)
  }

  /** Moves and edits an animal; an unknown cage is reported before an
      unknown animal. */
  function Update(s: Store, publicId: Id, name: string, species: string, cageId: Id, dateOfBirth: Option<Date>)
    : (r: Result<Store>)
    ensures cageId !in s.cages ==> r == Err(NoRows)
    ensures cageId in s.cages && publicId !in s.animals ==> r == Err(AnimalNotFound)
    ensures r.Ok? <==> cageId in s.cages && publicId in s.animals
    ensures r.Ok? ==> r.value == s.(animals := s.animals[publicId := Animal(name, species, cageId, dateOfBirth)])
    ensures r.Ok? ==> Repo.FindByID(r.value, publicId) == Ok(Repo.AnimalDTO(publicId, name, species, cageId, dateOfBirth))
  {
    Repo.Update(s, publicId, name, species, cageId, dateOfBirth)
  }

  /** Deletes an animal. */
  function Delete(s: Store, publicId: Id): (r: Result<Store>)
    ensures r.Ok? <==> publicId in s.animals
    ensures r.Err? ==> r.error == AnimalNotFound
    ensures r.Ok? ==> r.value == s.(animals := s.animals - {publicId})
  {
    Repo.Delete(s, publicId)
  }
}
