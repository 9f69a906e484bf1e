/** The search box of the four list pages: an item stays listed when the
    lower-cased search text occurs in one of two lower-cased fields. */
module SearchFilter {
  import opened Text
  import Seqs
  import opened Pages

  /** The search text occurs, ignoring ASCII case, in the first or the second field. */
  predicate Hit(search: string, first: string, second: string)
  {
    Includes(Lower(first), Lower(search)) || Includes(Lower(second), Lower(search))
  }

  /** The empty search hits every item. */
  lemma EmptySearchHits(first: string, second: string)
    ensures Hit("", first, second)
  {
  }

  /** Searching for a field's own text, in any case, hits its item. */
  lemma OwnFieldHits(first: string, second: string, search: string)
    requires Lower(search) == Lower(first)
    ensures Hit(search, first, second)
  {
  }

  /** The items the search keeps, in list order. */
  function Search<T(==,!new)>(items: seq<T>, search: string, first: T -> string, second: T -> string): (r: seq<T>)
    ensures forall i :: 0 <= i < |r| ==> r[i] in items && Hit(search, first(r[i]), second(r[i]))
    ensures forall i :: 0 <= i < |items| && Hit(search, first(items[i]), second(items[i])) ==> items[i] in r
    ensures forall x :: multiset(r)[x] == if Hit(search, first(x), second(x)) then multiset(items)[x] else 0
    ensures Seqs.IsSubsequence(r, items)
    ensures search == "" ==> r == items
  {
    var keep := (x: T) => Hit(search, first(x), second(x));
    Seqs.FilterIsSubsequence(items, keep);
    if search == "" then
      assert forall i :: 0 <= i < |items| ==> keep(items[i]) by {
        forall i | 0 <= i < |items| ensures keep(items[i]) {
          EmptySearchHits(first(items[i]), second(items[i]));
        }
      }
      Seqs.FilterKeepsAll(items, keep);
      Seqs.Filter(items, keep)
    else
      Seqs.Filter(items, keep)
  }

  /** The animals page searches name and species. */
  function FilterAnimals(animals: seq<AnimalItem>, search: string): (r: seq<AnimalItem>)
    ensures forall i :: 0 <= i < |r| ==> r[i] in animals && Hit(search, r[i].name, r[i].species)
    ensures forall i :: 0 <= i < |animals| && Hit(search, animals[i].name, animals[i].species) ==> animals[i] in r
    ensures forall a :: multiset(r)[a] == if Hit(search, a.name, a.species) then multiset(animals)[a] else 0
    ensures Seqs.IsSubsequence(r, animals)
    ensures search == "" ==> r == animals
  {
    Search(animals, search, (a: AnimalItem) => a.name, (a: AnimalItem) => a.species)
  }

  /** The cages page searches code and location. */
  function FilterCages(cages: seq<CageItem>, search: string): (r: seq<CageItem>)
    ensures forall i :: 0 <= i < |r| ==> r[i] in cages && Hit(search, r[i].code, r[i].location)
    ensures forall i :: 0 <= i < |cages| && Hit(search, cages[i].code, cages[i].location) ==> cages[i] in r
    ensures forall c :: multiset(r)[c] == if Hit(search, c.code, c.location) then multiset(cages)[c] else 0
    ensures Seqs.IsSubsequence(r, cages)
    ensures search == "" ==> r == cages
  {
    Search(cages, search, (c: CageItem) => c.code, (c: CageItem) => c.location)
  }

  /** The managers page searches username and name. */
  function FilterManagers(managers: seq<AccountItem>, search: string): (r: seq<AccountItem>)
    ensures forall i :: 0 <= i < |r| ==> r[i] in managers && Hit(search, r[i].username, r[i].name)
    ensures forall i :: 0 <= i < |managers| && Hit(search, managers[i].username, managers[i].name) ==> managers[i] in r
    ensures forall m :: multiset(r)[m] == if Hit(search, m.username, m.name) then multiset(managers)[m] else 0
    ensures Seqs.IsSubsequence(r, managers)
    ensures search == "" ==> r == managers
  {
    Search(managers, search, (m: AccountItem) => m.username, (m: AccountItem) => m.name)
  }

  /** The zookeepers page searches username and name. */
  function FilterZookeepers(zookeepers: seq<AccountItem>, search: string): (r: seq<AccountItem>)
    ensures forall i :: 0 <= i < |r| ==> r[i] in zookeepers && Hit(search, r[i].username, r[i].name)
    ensures forall i :: 0 <= i < |zookeepers| && Hit(search, zookeepers[i].username, zookeepers[i].name) ==> zookeepers[i] in r
    ensures forall z :: multiset(r)[z] == if Hit(search, z.username, z.name) then multiset(zookeepers)[z] else 0
    ensures Seqs.IsSubsequence(r, zookeepers)
    ensures search == "" ==> r == zookeepers
  {
    Search(zookeepers, search, (z: AccountItem) => z.username, (z: AccountItem) => z.name)
  }

  /** Typing an account's username, in any case, keeps that account listed. */
  lemma UsernameFindsAccount(accounts: seq<AccountItem>, i: int, search: string)
    requires 0 <= i < |accounts| && Lower(search) == Lower(accounts[i].username)
    ensures accounts[i] in FilterManagers(accounts, search)
    ensures accounts[i] in FilterZookeepers(accounts, search)
  {
  }
}
