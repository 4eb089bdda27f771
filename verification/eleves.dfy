/** The eleves (students) back end: name, email and level, kept in one record store. */
module Eleves {
  import opened Common
  import Store

  datatype EleveData = EleveData(nom: string, email: string, niveau: string)

  type Eleve = Store.Rec<EleveData>

  /** The level a new eleve gets when the caller names none. */
  const DefaultNiveau := "beginner"

  /**
   * `add_eleve`: a new eleve under `max(ids, default 0) + 1`, appended at the
   * end; `niveau` is `None` when the caller leaves the level out.
   */
  function AddEleve(items: seq<Eleve>, nom: string, email: string, niveau: Option<string>): (r: Store.Added<EleveData>)
    ensures r.items == items + [r.rec]
    ensures r.rec.data.nom == nom && r.rec.data.email == email
    ensures r.rec.data.niveau == niveau.GetOr(DefaultNiveau)
    ensures |items| == 0 ==> r.rec.id == 1
    ensures forall i :: 0 <= i < |items| ==> items[i].id < r.rec.id
    ensures |items| > 0 ==> Store.HasId(items, r.rec.id - 1)
  {
    Store.Add(items, EleveData(nom, email, niveau.GetOr(DefaultNiveau)))
  }

  /** Leaving the level out is the same as asking for "beginner". */
  lemma AddEleveDefaultLevel(items: seq<Eleve>, nom: string, email: string)
    ensures AddEleve(items, nom, email, None) == AddEleve(items, nom, email, Some("beginner"))
    ensures AddEleve(items, nom, email, None).rec.data.niveau == "beginner"
  {
  }

  /** `get_eleve`: the first eleve with the given id, or `None`. */
  function GetEleve(items: seq<Eleve>, id: int): (r: Option<Eleve>)
    ensures r.None? <==> !Store.HasId(items, id)
    ensures r.Some? ==> exists i :: 0 <= i < |items| && items[i] == r.value && r.value.id == id
                                    && forall j :: 0 <= j < i ==> items[j].id != id
  {
    Store.Get(items, id)
  }

  /** `update_eleve`: the first eleve with the id takes the new fields in place, keeping its id. */
  function UpdateEleve(items: seq<Eleve>, id: int, nom: string, email: string, niveau: string): (r: Store.Updated<EleveData>)
    ensures r.result.None? <==> !Store.HasId(items, id)
    ensures r.result.None? ==> r.items == items
    ensures r.result.Some? ==> r.result.value == Store.Rec(id, EleveData(nom, email, niveau))
    ensures r.result.Some? ==> exists i :: 0 <= i < |items| && items[i].id == id
                                           && r.items == items[i := r.result.value]
                                           && forall j :: 0 <= j < i ==> items[j].id != id
  {
    Store.Update(items, id, EleveData(nom, email, niveau))
  }

  /**
   * `delete_eleve`: `false` exactly when filtering out the id keeps the length;
   * otherwise no remaining eleve has that id.
   */
  function DeleteEleve(items: seq<Eleve>, id: int): (r: Store.Deleted<EleveData>)
    ensures !r.removed <==> |Store.Without(items, id)| == |items|
    ensures !r.removed ==> r.items == items
    ensures r.removed ==> forall i :: 0 <= i < |r.items| ==> r.items[i].id != id
    ensures forall i :: 0 <= i < |items| && items[i].id != id ==> items[i] in r.items
    ensures r.removed ==> r.items == Store.Without(items, id)
  {
    Store.Delete(items, id)
  }

  /** Every eleve operation keeps the ids of the store unique. */
  lemma OperationsKeepUniqueIds(items: seq<Eleve>, id: int, nom: string, email: string, niveau: string)
    requires Store.UniqueIds(items)
    ensures Store.UniqueIds(AddEleve(items, nom, email, Some(niveau)).items)
    ensures Store.UniqueIds(UpdateEleve(items, id, nom, email, niveau).items)
    ensures Store.UniqueIds(DeleteEleve(items, id).items)
  {
    Store.DeleteKeepsUniqueIds(items, id);
  }
}
