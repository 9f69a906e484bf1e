/** The cage service: the duplicate-code guard on Create and Update, and the
    repository's list, lookup and delete passed through. */
module CageService {
  import opened Domain
  import Repo = CageRepository

  /** Creates a cage under a fresh id, unless some cage already has the code. */
  function Create(s: Store, code: string, location: string, freshId: Id): (r: Result<(Store, Repo.CageDTO)>)
    ensures CodeTaken(s, code) ==> r == Err(CageCodeAlreadyExists)
    ensures r.Ok? <==> !CodeTaken(s, code) && freshId !in s.cages
    ensures !CodeTaken(s, code) && r.Err? ==> r.error == DuplicateKey
    ensures r.Ok? ==>
              var (s', dto) := r.value;
              && dto == Repo.CageDTO(freshId, code, location)
              && Repo.FindByID(s', freshId) == Ok(dto)
              && s' == s.(cages := s.cages[freshId := Cage(code, location)])
  {
    if Repo.CodeExists(s, code) then
      Err(CageCodeAlreadyExists)
    else
      var created :- Repo.Create(s, freshId, code, location);
      Ok((created.0, Repo.CageDTO(created.1, code, location)))
  }

  /** Every cage. */
  function List(s: Store): (r: set<Repo.CageDTO>)
    ensures forall d :: d in r <==> Repo.FindByID(s, d.publicId) == Ok(d)
  {
    var cages := Repo.List(s);
    assert forall d :: d in cages <==> Repo.FindByID(s, d.publicId) == Ok(d) by {
      forall d ensures d in cages <==> Repo.FindByID(s, d.publicId) == Ok(d) {
        Repo.ListMatchesFind(s, d);
      }
    }
    cages
  }

  /** The cage with this public_id. */
  function FindByID(s: Store, publicId: Id): (r: Result<Repo.CageDTO>)
    ensures r.Ok? <==> publicId in s.cages
    ensures r.Ok? ==> r.value.publicId == publicId && r.value in List(s)
    ensures r.Err? ==> r.error == NoRows
  {
    Repo.FindByID(s, publicId)
  }

  /** Replaces a cage's code and location, rejecting any code some cage
      already has -- the cage's own current code included -- before asking
      whether the cage exists. */
  function Update(s: Store, publicId: Id, code: string, location: string): (r: Result<Store>)
    ensures CodeTaken(s, code) ==> r == Err(CageCodeAlreadyExists)
    ensures !CodeTaken(s, code) && publicId !in s.cages ==> r == Err(CageNotFound)
    ensures r.Ok? <==> !CodeTaken(s, code) && publicId in s.cages
    ensures r.Ok? ==> Repo.FindByID(r.value, publicId) == Ok(Repo.CageDTO(publicId, code, location))
    ensures r.Ok? ==> r.value == s.(cages := s.cages[publicId := Cage(code, location)])
  {
    if Repo.CodeExists(s, code) then
      Err(CageCodeAlreadyExists)
    else
      Repo.Update(s, publicId, code, location)
  }

  /** Deletes a cage. */
  function Delete(s: Store, publicId: Id): (r: Result<Store>)
    ensures r.Ok? <==> publicId in s.cages
    ensures r.Err? ==> r.error == CageNotFound
    ensures r.Ok? ==> Repo.FindByID(r.value, publicId) == Err(NoRows) && r.value == s.(cages := s.cages - {publicId})
  {
    Repo.Delete(s, publicId)
  }

  /** An unknown cage with a taken code reports the duplicate code, not the
      missing cage: the code check comes first. */
  lemma DuplicateCodeReportedBeforeMissingCage(s: Store, publicId: Id, code: string, location: string)
    requires publicId !in s.cages && CodeTaken(s, code)
    ensures Update(s, publicId, code, location) == Err(CageCodeAlreadyExists)
    ensures Repo.Update(s, publicId, code, location) == Err(CageNotFound)
  {
  }

  /** As written, Update cannot keep a cage's code: resubmitting the cage's
      own code with a new location -- what the cages page sends when only the
      location was edited -- always fails. */
  lemma UpdateKeepingOwnCodeFails(s: Store, publicId: Id, location: string)
    requires publicId in s.cages
    ensures Update(s, publicId, s.cages[publicId].code, location) == Err(CageCodeAlreadyExists)
  {
  }

  /** Some cage other than publicId has the code. */
  predicate CodeTakenByOther(s: Store, publicId: Id, code: string)
  {
    exists id :: id in s.cages && id != publicId && s.cages[id].code == code
  }

  /** Update as evidently intended: the duplicate check ignores the cage
      being edited, so its own code may be kept. */
  function UpdateExcludingSelf(s: Store, publicId: Id, code: string, location: string): (r: Result<Store>)
    ensures CodeTakenByOther(s, publicId, code) ==> r == Err(CageCodeAlreadyExists)
    ensures r.Ok? <==> !CodeTakenByOther(s, publicId, code) && publicId in s.cages
    ensures r.Ok? ==> r.value == s.(cages := s.cages[publicId := Cage(code, location)])
  {
    var others := set id | id in s.cages && id != publicId :: s.cages[id].code;
    if code in others then
      Err(CageCodeAlreadyExists)
    else
      Repo.Update(s, publicId, code, location)
  }

  /** The corrected Update lets a cage keep its code while its location
      changes, and still never creates a second cage with the same code. */
  lemma UpdateExcludingSelfKeepsOwnCode(s: Store, publicId: Id, location: string)
    requires publicId in s.cages && UniqueCageCodes(s)
    ensures UpdateExcludingSelf(s, publicId, s.cages[publicId].code, location).Ok?
    ensures UpdateExcludingSelf(s, publicId, s.cages[publicId].code, location).value.cages[publicId]
            == Cage(s.cages[publicId].code, location)
  {
  }

  /** Both Update variants keep cage codes unique. */
  lemma UpdatesKeepCodesUnique(s: Store, publicId: Id, code: string, location: string)
    requires UniqueCageCodes(s)
    ensures Update(s, publicId, code, location).Ok? ==> UniqueCageCodes(Update(s, publicId, code, location).value)
    ensures UpdateExcludingSelf(s, publicId, code, location).Ok? ==>
              UniqueCageCodes(UpdateExcludingSelf(s, publicId, code, location).value)
  {
  }

  /** Create keeps cage codes unique. */
  lemma CreateKeepsCodesUnique(s: Store, code: string, location: string, freshId: Id)
    requires UniqueCageCodes(s)
    ensures Create(s, code, location, freshId).Ok? ==> UniqueCageCodes(Create(s, code, location, freshId).value.0)
  {
  }
}
