/** The request bodies the list pages send and the small display helpers of
    the animals page. A JSON body is a map from key to a string or null. */
module Forms {
  import opened Pages
  import opened Domain

  datatype Json = JStr(s: string) | JNull

  type Body = map<string, Json>

  /** `value || null`: the empty string is sent as null. */
  function NullIfEmpty(value: string): (j: Json)
    ensures j == JNull <==> value == ""
    ensures j.JStr? ==> j.s == value
  {
    if value == "" then JNull else JStr(value)
  }

  /** A nullable string read back from JSON: null is the empty form field. */
  function FieldText(j: Json): string
  {
    match j
    case JNull => ""
    case JStr(s) => s
  }

  /** The animal create form; every field is a text input, the date one may be empty. */
  datatype AnimalForm = AnimalForm(name: string, species: string, cagePublicId: string, dateOfBirth: string)

  /** The create body: the form's fields, with an empty date of birth sent as null. */
  function AnimalCreateBody(f: AnimalForm): (b: Body)
    ensures b.Keys == {"name", "species", "cage_public_id", "date_of_birth"}
    ensures b["date_of_birth"] == JNull <==> f.dateOfBirth == ""
    ensures DecodeAnimalForm(b) == Some(f)
  {
    map["name" := JStr(f.name), "species" := JStr(f.species),
        "cage_public_id" := JStr(f.cagePublicId), "date_of_birth" := NullIfEmpty(f.dateOfBirth)]
  }

  /** Reads an animal body back into the form that produced it, or None when
      a key is missing or a text field is null. */
  function DecodeAnimalForm(b: Body): Option<AnimalForm>
  {
    if "name" in b && "species" in b && "cage_public_id" in b && "date_of_birth" in b
       && b["name"].JStr? && b["species"].JStr? && b["cage_public_id"].JStr?
    then Some(AnimalForm(b["name"].s, b["species"].s, b["cage_public_id"].s, FieldText(b["date_of_birth"])))
    else None
  }

  /** The update body: the edited row's four fields, without its public_id,
      and a null or empty date of birth sent as null. */
  function AnimalUpdateBody(a: AnimalItem): (b: Body)
    ensures b.Keys == {"name", "species", "cage_public_id", "date_of_birth"}
    ensures b["date_of_birth"] == JNull <==> a.dateOfBirth.Null? || a.dateOfBirth.value == ""
    ensures DecodeAnimalForm(b) == Some(AnimalForm(a.name, a.species, a.cagePublicId, DateText(a.dateOfBirth)))
  {
    map["name" := JStr(a.name), "species" := JStr(a.species),
        "cage_public_id" := JStr(a.cagePublicId), "date_of_birth" := NullIfEmpty(DateText(a.dateOfBirth))]
  }

  /** A nullable date as the text of a form field. */
  function DateText(d: Nullable): string
  {
    match d
    case Null => ""
    case Str(s) => s
  }

  /** The first n characters of s, or all of s when it is shorter (String.slice(0, n)). */
  function Prefix(s: string, n: nat): (r: string)
    ensures |r| == if |s| < n then |s| else n
    ensures r == s[..|r|]
  {
    if |s| < n then s else s[..n]
  }

  /** The edit dialog's copy of a row: the date of birth cut to its first ten
      characters (the yyyy-mm-dd part of a timestamp), or "" when null or empty. */
  function PrefillEdit(a: AnimalItem): (e: AnimalItem)
    ensures e == a.(dateOfBirth := e.dateOfBirth)
    ensures e.dateOfBirth.Str?
    ensures |e.dateOfBirth.value| <= 10
    ensures e.dateOfBirth.value == "" <==> a.dateOfBirth.Null? || a.dateOfBirth.value == ""
  {
    a.(dateOfBirth := Str(if a.dateOfBirth.Str? && a.dateOfBirth.value != "" then Prefix(a.dateOfBirth.value, 10) else ""))
  }

  /** Opening the edit dialog and saving it unchanged sends null exactly when
      the row had no date, and otherwise the date's first ten characters. */
  lemma PrefillThenSave(a: AnimalItem)
    ensures var b := AnimalUpdateBody(PrefillEdit(a));
            && (b["date_of_birth"] == JNull <==> a.dateOfBirth.Null? || a.dateOfBirth.value == "")
            && (b["date_of_birth"].JStr? ==> b["date_of_birth"].s == Prefix(a.dateOfBirth.value, 10))
  {
  }

  /** Prefilling an already prefilled row changes nothing. */
  lemma PrefillIdempotent(a: AnimalItem)
    ensures PrefillEdit(PrefillEdit(a)) == PrefillEdit(a)
  {
  }

  /** The table's date cell: "-" for a null or empty date, otherwise the
      locale rendering, which is a parameter. */
  function FormatDate(date: Nullable, locale: string -> string): (r: string)
    ensures date.Null? || date.value == "" ==> r == "-"
    ensures date.Str? && date.value != "" ==> r == locale(date.value)
  {
    if date.Null? || date.value == "" then "-" else locale(date.value)
  }

  /** The table cell and an unchanged edit-then-save of the same row: the
      cell shows the dash exactly when the save sends a null date. Otherwise
      the cell renders the full stored date while the save sends only its
      first ten characters, so the two carry the same text only for a date
      of at most ten characters. The locale rendering of a date is never the
      dash itself. */
  lemma FormatDateAgreesWithSave(a: AnimalItem, locale: string -> string)
    requires forall x :: locale(x) != "-"
    ensures var b := AnimalUpdateBody(PrefillEdit(a));
            FormatDate(a.dateOfBirth, locale) == "-" <==> b["date_of_birth"] == JNull
    ensures var b := AnimalUpdateBody(PrefillEdit(a));
            b["date_of_birth"].JStr? ==>
              && FormatDate(a.dateOfBirth, locale) == locale(a.dateOfBirth.value)
              && b["date_of_birth"].s == Prefix(a.dateOfBirth.value, 10)
              && (b["date_of_birth"].s == a.dateOfBirth.value <==> |a.dateOfBirth.value| <= 10)
  {
    PrefillThenSave(a);
  }

  /** cages[i] is the first cage carrying this public_id. */
  predicate FirstWithId(cages: seq<CageItem>, id: string, i: int)
  {
    0 <= i < |cages| && cages[i].publicId == id && forall j :: 0 <= j < i ==> cages[j].publicId != id
  }

  /** The cage column: the code of the first cage with this public_id, or "Unknown". */
  function CageLabel(cages: seq<CageItem>, id: string): (r: string)
    ensures (forall i :: 0 <= i < |cages| ==> cages[i].publicId != id) ==> r == "Unknown"
    ensures forall i :: FirstWithId(cages, id, i) ==> r == cages[i].code
  {
    if cages == [] then "Unknown"
    else if cages[0].publicId == id then cages[0].code
    else
      var r := CageLabel(cages[1..], id);
      assert forall i :: 1 <= i < |cages| ==> cages[i] == cages[1..][i - 1];
      r
  }

  /** When the cage list carries each public_id once, as the backend's list
      does, every listed cage is labelled with its own code. */
  lemma LabelOfListedCage(cages: seq<CageItem>, k: int)
    requires forall i, j :: 0 <= i < j < |cages| ==> cages[i].publicId != cages[j].publicId
    requires 0 <= k < |cages|
    ensures CageLabel(cages, cages[k].publicId) == cages[k].code
  {
  }

  /** The cage forms: code and location. */
  datatype CageForm = CageForm(code: string, location: string)

  /** The create body is the form itself. */
  function CageCreateBody(f: CageForm): (b: Body)
    ensures b.Keys == {"code", "location"}
    ensures DecodeCageForm(b) == Some(f)
  {
    map["code" := JStr(f.code), "location" := JStr(f.location)]
  }

  function DecodeCageForm(b: Body): Option<CageForm>
  {
    if "code" in b && "location" in b && b["code"].JStr? && b["location"].JStr?
    then Some(CageForm(b["code"].s, b["location"].s))
    else None
  }

  /** The update body carries exactly the edited row's code and location:
      the same body the create form would send for them. */
  function CageUpdateBody(c: CageItem): (b: Body)
    ensures b.Keys == {"code", "location"}
    ensures b == CageCreateBody(CageForm(c.code, c.location))
    ensures DecodeCageForm(b) == Some(CageForm(c.code, c.location))
  {
    map["code" := JStr(c.code), "location" := JStr(c.location)]
  }

  /** The manager and zookeeper create forms. */
  datatype AccountForm = AccountForm(username: string, password: string, name: string)

  /** The create body is the form itself: username, password and name. */
  function AccountCreateBody(f: AccountForm): (b: Body)
    ensures b.Keys == {"username", "password", "name"}
    ensures DecodeAccountForm(b) == Some(f)
  {
    map["username" := JStr(f.username), "password" := JStr(f.password), "name" := JStr(f.name)]
  }

  function DecodeAccountForm(b: Body): Option<AccountForm>
  {
    if "username" in b && "password" in b && "name" in b
       && b["username"].JStr? && b["password"].JStr? && b["name"].JStr?
    then Some(AccountForm(b["username"].s, b["password"].s, b["name"].s))
    else None
  }

  /** The manager and zookeeper update body: the name alone, so neither the
      username nor a password is ever sent for change. */
  function NameUpdateBody(a: AccountItem): (b: Body)
    ensures b.Keys == {"name"}
    ensures "username" !in b && "password" !in b
    ensures b["name"] == JStr(a.name)
    ensures DecodeAccountForm(b).None?
  {
    map["name" := JStr(a.name)]
  }
}
