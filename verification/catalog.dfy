/** The read-only club catalogue: every club, and lookup by identifier.
    The bundled JSON file is the `dataset` parameter. */
module Catalog {
  import opened Types

  /** `getAllClubs()`: the dataset, as loaded. */
  function GetAllClubs(dataset: seq<Club>): seq<Club> {
    dataset
  }

  /** The identifier texts of the clubs, in catalogue order. */
  function IdTexts(clubs: seq<Club>): (r: seq<string>)
    ensures |r| == |clubs|
    ensures forall i :: 0 <= i < |clubs| ==> r[i] == IdString(clubs[i].id)
  {
    seq(|clubs|, i requires 0 <= i < |clubs| => IdString(clubs[i].id))
  }

  /** Position of the first occurrence of `key`, as `find` scans from the front. */
  function FirstIndexOf(keys: seq<string>, key: string): (r: Option<nat>)
    ensures r.Some? ==> r.value < |keys| && keys[r.value] == key
    ensures r.Some? ==> forall j :: 0 <= j < r.value ==> keys[j] != key
    ensures r.None? <==> key !in keys
    decreases |keys|
  {
    if |keys| == 0 then None
    else if keys[0] == key then Some(0)
    else
      assert keys == [keys[0]] + keys[1..];
      match FirstIndexOf(keys[1..], key)
      case None => None
      case Some(k) => Some(k + 1)
  }

  /** Position of the first club whose identifier text equals `id`. */
  function FirstIndexWithId(clubs: seq<Club>, id: string): (r: Option<nat>)
    ensures r.Some? ==> r.value < |clubs| && IdString(clubs[r.value].id) == id
    ensures r.Some? ==> forall j :: 0 <= j < r.value ==> IdString(clubs[j].id) != id
    ensures r.None? <==> forall j :: 0 <= j < |clubs| ==> IdString(clubs[j].id) != id
  {
    var keys := IdTexts(clubs);
    var r := FirstIndexOf(keys, id);
    assert r.None? ==> forall j :: 0 <= j < |clubs| ==> keys[j] != id;
    assert (forall j :: 0 <= j < |clubs| ==> keys[j] != id) ==> id !in keys;
    r
  }

  /** No club before position `i` has identifier text `id`. */
  predicate IsFirstWithId(clubs: seq<Club>, i: nat, id: string)
    requires i <= |clubs|
  {
    forall j :: 0 <= j < i ==> IdString(clubs[j].id) != id
  }

  /** `getClubById(id)`: `find` with `String(club.Id) === String(id)`. */
  function GetClubById(dataset: seq<Club>, id: string): (r: Option<Club>)
    ensures r.Some? ==> r.value in dataset && IdString(r.value.id) == id
    ensures r.Some? ==>
              exists i :: 0 <= i < |dataset| && dataset[i] == r.value && IsFirstWithId(dataset, i, id)
    ensures r.None? <==> forall c :: c in dataset ==> IdString(c.id) != id
  {
    match FirstIndexWithId(dataset, id)
    case None => None
    case Some(i) => Some(dataset[i])
  }

  /** Every club of the catalogue can be found again by its own identifier text. */
  lemma EveryClubIsFound(dataset: seq<Club>)
    ensures forall c :: c in GetAllClubs(dataset) ==> GetClubById(dataset, IdString(c.id)).Some?
  {
  }

  /** With distinct identifier texts, lookup by a club's identifier returns that very club. */
  lemma LookupReturnsOwner(dataset: seq<Club>, k: nat)
    requires k < |dataset|
    requires forall i, j :: 0 <= i < j < |dataset| ==> IdString(dataset[i].id) != IdString(dataset[j].id)
    ensures GetClubById(dataset, IdString(dataset[k].id)) == Some(dataset[k])
  {
    var id := IdString(dataset[k].id);
    assert FirstIndexWithId(dataset, id).Some?;
  }
}
