/** The rows the dashboard list pages hold, as the JSON the backend lists
    returns them. */
module Pages {

  /** An animals-page row; date_of_birth is null when unknown. */
  datatype AnimalItem = AnimalItem(
    publicId: string,
    name: string,
    species: string,
    cagePublicId: string,
    dateOfBirth: Nullable)

  datatype Nullable = Null | Str(value: string)

  /** A cages-page row. */
  datatype CageItem = CageItem(publicId: string, code: string, location: string)

  /** A managers-page or zookeepers-page row. */
  datatype AccountItem = AccountItem(publicId: string, username: string, name: string)
}
