/** The notes back end: notes with a title and a content, kept in one record store. */
module Notes {
  import opened Common
  import Store

  datatype NoteData = NoteData(title: string, content: string)

  type Note = Store.Rec<NoteData>

  /** `add_note`: a new note under the next free id, appended at the end. */
  function AddNote(items: seq<Note>, title: string, content: string): (r: Store.Added<NoteData>)
    ensures r.rec == Store.Rec(r.rec.id, NoteData(title, content))
    ensures r.items == items + [r.rec]
    ensures |items| == 0 ==> r.rec.id == 1
    ensures forall i :: 0 <= i < |items| ==> items[i].id < r.rec.id
    ensures |items| > 0 ==> Store.HasId(items, r.rec.id - 1)
  {
    Store.Add(items, NoteData(title, content))
  }

  /** `get_note`: the first note with the given id, or `None`. */
  function GetNote(items: seq<Note>, id: int): (r: Option<Note>)
    ensures r.None? <==> !Store.HasId(items, id)
    ensures r.Some? ==> exists i :: 0 <= i < |items| && items[i] == r.value && r.value.id == id
                                    && forall j :: 0 <= j < i ==> items[j].id != id
  {
    Store.Get(items, id)
  }

  /** `update_note`: the first note with the id takes the new title and content in place. */
  function UpdateNote(items: seq<Note>, id: int, title: string, content: string): (r: Store.Updated<NoteData>)
    ensures r.result.None? <==> !Store.HasId(items, id)
    ensures r.result.None? ==> r.items == items
    ensures r.result.Some? ==> r.result.value == Store.Rec(id, NoteData(title, content))
    ensures r.result.Some? ==> exists i :: 0 <= i < |items| && items[i].id == id
                                           && r.items == items[i := r.result.value]
                                           && forall j :: 0 <= j < i ==> items[j].id != id
  {
    Store.Update(items, id, NoteData(title, content))
  }

  /** `delete_note`: every note with the id goes; `false` and no write when there was none. */
  function DeleteNote(items: seq<Note>, id: int): (r: Store.Deleted<NoteData>)
    ensures r.removed <==> Store.HasId(items, id)
    ensures !r.removed ==> r.items == items
    ensures GetNote(r.items, id).None?
    ensures forall i :: 0 <= i < |items| && items[i].id != id ==> items[i] in r.items
    ensures r.removed ==> r.items == Store.Without(items, id)
  {
    Store.Delete(items, id)
  }

  /** Every note operation keeps the ids of the store unique. */
  lemma OperationsKeepUniqueIds(items: seq<Note>, id: int, title: string, content: string)
    requires Store.UniqueIds(items)
    ensures Store.UniqueIds(AddNote(items, title, content).items)
    ensures Store.UniqueIds(UpdateNote(items, id, title, content).items)
    ensures Store.UniqueIds(DeleteNote(items, id).items)
  {
    Store.DeleteKeepsUniqueIds(items, id);
  }

  /**
   * The create/read/update/delete scenario of the notes test: starting from an
   * empty store, two adds get ids 1 and 2, the first note can be read back and
   * updated, deleting it makes it unreadable, and unknown ids are refused.
   */
  lemma CrudScenario()
    ensures var a1 := AddNote([], "t1", "c1");
            && a1.rec.id == 1
            && GetNote(a1.items, 1).Some? && GetNote(a1.items, 1).value.data.title == "t1"
            && var a2 := AddNote(a1.items, "t2", "c2");
            && a2.rec.id == 2
            && var u := UpdateNote(a2.items, 1, "tt", "cc");
            && u.result.Some? && u.result.value.data.title == "tt"
            && var d := DeleteNote(u.items, 1);
            && d.removed
            && GetNote(d.items, 1).None?
            && UpdateNote(d.items, 999, "x", "y").result.None?
            && !DeleteNote(d.items, 999).removed
  {
  }
}
