/** The animal repository: animals, each placed in a cage named by its
    public_id. Listing and lookup join every animal to its cage. */
module AnimalRepository {
  import opened Domain

  datatype AnimalDTO = AnimalDTO(publicId: Id, name: string, species: string, cageId: Id, dateOfBirth: Option<Date>)

  /** The row the joined animal queries report for the animal keyed by id. */
  function AnimalRow(s: Store, id: Id): AnimalDTO
    requires id in s.animals
  {
    var a := s.animals[id];
    AnimalDTO(id, a.name, a.species, a.cageId, a.dateOfBirth)
  }

  /** An animal whose cage row still exists, so the join reports it. */
  predicate Placed(s: Store, id: Id)
  {
    id in s.animals && s.animals[id].cageId in s.cages
  }

  /** Resolves the cage, then inserts the animal in it; an unknown cage
      inserts nothing. */
  function Create(s: Store, publicId: Id, name: string, species: string, cageId: Id, dateOfBirth: Option<Date>)
    : (r: Result<(Store, Id)>)
    ensures cageId !in s.cages ==> r == Err(NoRows)
    ensures r.Ok? <==> cageId in s.cages && publicId !in s.animals
    ensures cageId in s.cages && r.Err? ==> r.error == DuplicateKey
    ensures r.Ok? ==>
              var (s', id) := r.value;
              && id == publicId
              && s'.animals == s.animals[publicId := Animal(name, species, cageId, dateOfBirth)]
              && s' == s.(animals := s'.animals)
  {
    if cageId !in s.cages then
      Err(NoRows)
    else if publicId in s.animals then
      Err(DuplicateKey)
    else
      Ok((s.(animals := s.animals[publicId := Animal(name, species, cageId, dateOfBirth)]), publicId))
  }

  /** Every animal whose cage exists, reporting that cage's public_id. */
  function List(s: Store): (r: set<AnimalDTO>)
    ensures forall d :: d in r ==> Placed(s, d.publicId) && d == AnimalRow(s, d.publicId)
    ensures forall id :: Placed(s, id) ==> AnimalRow(s, id) in r
  {
    set id | id in s.animals && s.animals[id].cageId in s.cages :: AnimalRow(s, id)
  }

  /** The animal with this public_id, if its cage exists. */
  function FindByID(s: Store, publicId: Id): (r: Result<AnimalDTO>)
    ensures r.Ok? <==> Placed(s, publicId)
    ensures r.Ok? ==> r.value.publicId == publicId && r.value.cageId == s.animals[publicId].cageId
    ensures r.Ok? ==> r.value == AnimalRow(s, publicId)
    ensures r.Err? ==> r.error == NoRows
  {
    if publicId in s.animals && s.animals[publicId].cageId in s.cages then
      Ok(AnimalRow(s, publicId))
    else
      Err(NoRows)
  }

  /** Resolves the new cage first, then replaces every field of the animal. */
  function Update(s: Store, publicId: Id, name: string, species: string, cageId: Id, dateOfBirth: Option<Date>)
    : (r: Result<Store>)
    ensures cageId !in s.cages ==> r == Err(NoRows)
    ensures cageId in s.cages && publicId !in s.animals ==> r == Err(AnimalNotFound)
    ensures r.Ok? <==> cageId in s.cages && publicId in s.animals
    ensures r.Ok? ==>
              && r.value.animals.Keys == s.animals.Keys
              && r.value.animals[publicId] == Animal(name, species, cageId, dateOfBirth)
              && (forall id :: id in s.animals && id != publicId ==> r.value.animals[id] == s.animals[id])
              && r.value == s.(animals := r.value.animals)
  {
    if cageId !in s.cages then
      Err(NoRows)
    else if publicId !in s.animals then
      Err(AnimalNotFound)
    else
      Ok(s.(animals := s.animals[publicId := Animal(name, species, cageId, dateOfBirth)]))
  }

  /** Removes the animal with this public_id. Tasks that refer to it are
      left as they are. */
  function Delete(s: Store, publicId: Id): (r: Result<Store>)
    ensures r.Ok? <==> publicId in s.animals
    ensures r.Err? ==> r.error == AnimalNotFound
    ensures r.Ok? ==>
              && r.value.animals.Keys == s.animals.Keys - {publicId}
              && (forall id :: id in r.value.animals ==> r.value.animals[id] == s.animals[id])
              && r.value == s.(animals := r.value.animals)
  {
    if publicId !in s.animals then
      Err(AnimalNotFound)
    else
      Ok(s.(animals := s.animals - {publicId}))
  }

  /** The listing is exactly the set of rows FindByID would return. */
  lemma ListMatchesFind(s: Store, d: AnimalDTO)
    ensures d in List(s) <==> FindByID(s, d.publicId) == Ok(d)
  {
  }

  /** The cage public_id given to Create is the one FindByID and List report,
      with the name, species and date of birth given. */
  lemma CreateThenFind(s: Store, publicId: Id, name: string, species: string, cageId: Id, dateOfBirth: Option<Date>)
    requires Create(s, publicId, name, species, cageId, dateOfBirth).Ok?
    ensures var s' := Create(s, publicId, name, species, cageId, dateOfBirth).value.0;
            var row := AnimalDTO(publicId, name, species, cageId, dateOfBirth);
            && FindByID(s', publicId) == Ok(row)
            && row in List(s')
  {
  }

  /** FindByID after a successful Update reports the new fields. */
  lemma UpdateThenFind(s: Store, publicId: Id, name: string, species: string, cageId: Id, dateOfBirth: Option<Date>)
    requires Update(s, publicId, name, species, cageId, dateOfBirth).Ok?
    ensures FindByID(Update(s, publicId, name, species, cageId, dateOfBirth).value, publicId)
            == Ok(AnimalDTO(publicId, name, species, cageId, dateOfBirth))
  {
  }

  /** After a successful Delete the animal is not found, and deleting it
      again reports "animal not found". */
  lemma DeleteThenFind(s: Store, publicId: Id)
    requires Delete(s, publicId).Ok?
    ensures FindByID(Delete(s, publicId).value, publicId) == Err(NoRows)
    ensures Delete(Delete(s, publicId).value, publicId) == Err(AnimalNotFound)
  {
  }
}
