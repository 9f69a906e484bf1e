/** The cage repository: the cages table as a map from public_id to code
    and location. */
module CageRepository {
  import opened Domain

  datatype CageDTO = CageDTO(publicId: Id, code: string, location: string)

  /** The row the cage queries report for the cage keyed by id. */
  function CageRow(s: Store, id: Id): CageDTO
    requires id in s.cages
  {
    CageDTO(id, s.cages[id].code, s.cages[id].location)
  }

  /** Whether some cage already has the code. */
  function CodeExists(s: Store, code: string): (b: bool)
    ensures b <==> exists id :: id in s.cages && s.cages[id].code == code
  {
    var codes := set id | id in s.cages :: s.cages[id].code;
    code in codes
  }

  /** Inserts a cage under the given public_id and reports that id back. */
  function Create(s: Store, publicId: Id, code: string, location: string): (r: Result<(Store, Id)>)
    ensures r.Ok? <==> publicId !in s.cages
    ensures r.Err? ==> r.error == DuplicateKey
    ensures r.Ok? ==>
              var (s', id) := r.value;
              && id == publicId
              && s'.cages == s.cages[publicId := Cage(code, location)]
              && s' == s.(cages := s'.cages)
  {
    if publicId in s.cages then
      Err(DuplicateKey)
    else
      Ok((s.(cages := s.cages[publicId := Cage(code, location)]), publicId))
  }

  /** Every cage. */
  function List(s: Store): (r: set<CageDTO>)
    ensures forall d :: d in r ==> d.publicId in s.cages && d == CageRow(s, d.publicId)
    ensures forall id :: id in s.cages ==> CageRow(s, id) in r
    ensures |r| == |s.cages|
  {
    var rows := set id | id in s.cages :: CageRow(s, id);
    assert |rows| == |s.cages| by {
      RowsCardinality(s, s.cages.Keys);
    }
    rows
  }

  /** Distinct cages give distinct rows, so there are as many rows as cages. */
  lemma {:induction false} RowsCardinality(s: Store, ids: set<Id>)
    requires ids <= s.cages.Keys
    ensures |set id | id in ids :: CageRow(s, id)| == |ids|
    decreases |ids|
  {
    if ids != {} {
      var x :| x in ids;
      var rest := ids - {x};
      RowsCardinality(s, rest);
      assert (set id | id in ids :: CageRow(s, id))
             == (set id | id in rest :: CageRow(s, id)) + {CageRow(s, x)};
      assert CageRow(s, x) !in (set id | id in rest :: CageRow(s, id));
    }
  }

  /** The cage with this public_id. */
  function FindByID(s: Store, publicId: Id): (r: Result<CageDTO>)
    ensures r.Ok? <==> publicId in s.cages
    ensures r.Ok? ==> r.value == CageDTO(publicId, s.cages[publicId].code, s.cages[publicId].location)
    ensures r.Err? ==> r.error == NoRows
  {
    if publicId in s.cages then Ok(CageRow(s, publicId)) else Err(NoRows)
  }

  /** Replaces the code and location of the cage with this public_id. */
  function Update(s: Store, publicId: Id, code: string, location: string): (r: Result<Store>)
    ensures r.Ok? <==> publicId in s.cages
    ensures r.Err? ==> r.error == CageNotFound
    ensures r.Ok? ==>
              && r.value.cages.Keys == s.cages.Keys
              && r.value.cages[publicId] == Cage(code, location)
              && (forall id :: id in s.cages && id != publicId ==> r.value.cages[id] == s.cages[id])
              && r.value == s.(cages := r.value.cages)
  {
    if publicId !in s.cages then
      Err(CageNotFound)
    else
      Ok(s.(cages := s.cages[publicId := Cage(code, location)]))
  }

  /** Removes the cage with this public_id. Animals that refer to it are
      left as they are. */
  function Delete(s: Store, publicId: Id): (r: Result<Store>)
    ensures r.Ok? <==> publicId in s.cages
    ensures r.Err? ==> r.error == CageNotFound
    ensures r.Ok? ==>
              && r.value.cages.Keys == s.cages.Keys - {publicId}
              && (forall id :: id in r.value.cages ==> r.value.cages[id] == s.cages[id])
              && r.value == s.(cages := r.value.cages)
  {
    if publicId !in s.cages then
      Err(CageNotFound)
    else
      Ok(s.(cages := s.cages - {publicId}))
  }

  /** The listing is exactly the set of rows FindByID would return. */
  lemma ListMatchesFind(s: Store, d: CageDTO)
    ensures d in List(s) <==> FindByID(s, d.publicId) == Ok(d)
  {
  }

  /** FindByID after a successful Create reports the code and location given. */
  lemma CreateThenFind(s: Store, publicId: Id, code: string, location: string)
    requires Create(s, publicId, code, location).Ok?
    ensures FindByID(Create(s, publicId, code, location).value.0, publicId) == Ok(CageDTO(publicId, code, location))
    ensures CodeExists(Create(s, publicId, code, location).value.0, code)
  {
  }

  /** FindByID after a successful Update reports the new code and location. */
  lemma UpdateThenFind(s: Store, publicId: Id, code: string, location: string)
    requires Update(s, publicId, code, location).Ok?
    ensures FindByID(Update(s, publicId, code, location).value, publicId) == Ok(CageDTO(publicId, code, location))
  {
  }

  /** After a successful Delete the cage is not found, and deleting it again
      reports "cage not found". */
  lemma DeleteThenFind(s: Store, publicId: Id)
    requires Delete(s, publicId).Ok?
    ensures FindByID(Delete(s, publicId).value, publicId) == Err(NoRows)
    ensures Delete(Delete(s, publicId).value, publicId) == Err(CageNotFound)
  {
  }
}
