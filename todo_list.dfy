/** The client-side todo list: the per-row draft titles the user is
    editing, what each row shows, when its update button is enabled, and
    the handlers that change the drafts and call the server actions. */
module TodoList {
  import opened Wrappers
  import opened JsStrings
  import opened Page

  /** The in-progress titles, by todo id; a missing id means "not edited". */
  type Drafts = map<int, string>

  /** `draftTitles[todo.id] ?? todo.title`: the value in a row's input. */
  function CurrentDraft(drafts: Drafts, todo: Todo): (current: string)
    ensures todo.id in drafts ==> current == drafts[todo.id]
    ensures todo.id !in drafts ==> current == todo.title
  {
    if todo.id in drafts then drafts[todo.id] else todo.title
  }

  /** `currentDraft !== todo.title && currentDraft.trim() !== ''`. */
  function IsDirty(drafts: Drafts, todo: Todo): (dirty: bool)
    ensures dirty <==> CurrentDraft(drafts, todo) != todo.title && !IsBlank(CurrentDraft(drafts, todo))
  {
    var current := CurrentDraft(drafts, todo);
    TrimEmptyIffBlank(current);
    current != todo.title && Trim(current) != ""
  }

  /** `disabled={!isDirty}` on the row's update button. */
  function SubmitDisabled(drafts: Drafts, todo: Todo): (disabled: bool)
    ensures disabled <==> CurrentDraft(drafts, todo) == todo.title || IsBlank(CurrentDraft(drafts, todo))
  {
    !IsDirty(drafts, todo)
  }

  /** The fields a row's update form submits: the hidden `id` (the todo's id
      written out in decimal) and `newTitle` (the input's value). The
      server reads back the row's own id and the value shown in the row. */
  function RowUpdateForm(drafts: Drafts, todo: Todo): (form: FormData)
    ensures form.Keys == {"id", "newTitle"}
    ensures ParseIdField(form) == Some(todo.id)
    ensures Field(form, "newTitle") == Some(CurrentDraft(drafts, todo))
  {
    ParseIntOfIntToString(todo.id);
    map["id" := IntToString(todo.id), "newTitle" := CurrentDraft(drafts, todo)]
  }

  /** The fields a row's delete form submits: the hidden `id`, which the
      server reads back as the row's own id. */
  function RowDeleteForm(todo: Todo): (form: FormData)
    ensures form.Keys == {"id"}
    ensures ParseIdField(form) == Some(todo.id)
  {
    ParseIntOfIntToString(todo.id);
    map["id" := IntToString(todo.id)]
  }

  /** Without any drafts every row shows its stored title and is clean. */
  lemma NoDraftsShowStoredTitles(todo: Todo)
    ensures CurrentDraft(map[], todo) == todo.title
    ensures !IsDirty(map[], todo) && SubmitDisabled(map[], todo)
  {
  }

  /** A keystroke in one row changes what no other row shows. */
  lemma KeystrokeAffectsOnlyItsRow(drafts: Drafts, todo: Todo, id: int, value: string)
    requires id != todo.id
    ensures CurrentDraft(drafts[id := value], todo) == CurrentDraft(drafts, todo)
    ensures IsDirty(drafts[id := value], todo) == IsDirty(drafts, todo)
  {
  }

  /** Typing a non-blank value that differs from the stored title makes the
      row dirty and shows that value. */
  lemma EditingMakesRowDirty(drafts: Drafts, todo: Todo, value: string)
    requires value != todo.title && !IsBlank(value)
    ensures CurrentDraft(drafts[todo.id := value], todo) == value
    ensures IsDirty(drafts[todo.id := value], todo)
  {
  }

  /** Typing back exactly the stored title makes the row clean again, while
      its draft entry stays. */
  lemma TypingBackStoredTitleIsClean(drafts: Drafts, todo: Todo)
    ensures todo.id in drafts[todo.id := todo.title]
    ensures !IsDirty(drafts[todo.id := todo.title], todo)
  {
  }

  /** A whitespace-only value never enables the update button. */
  lemma BlankDraftIsNeverDirty(drafts: Drafts, todo: Todo, value: string)
    requires IsBlank(value)
    ensures SubmitDisabled(drafts[todo.id := value], todo)
  {
  }

  /** Once a row's draft is cleared it shows its stored title and is clean. */
  lemma ClearedRowIsClean(drafts: Drafts, todo: Todo)
    ensures CurrentDraft(drafts - {todo.id}, todo) == todo.title
    ensures !IsDirty(drafts - {todo.id}, todo)
  {
  }

  /** Submitting a dirty row as its owner, when the store does not fail,
      stores the draft as the row's title; with that row's draft cleared,
      the refreshed row shows what the user had typed. */
  lemma SubmittingDirtyRowStoresDraft(db: Db, drafts: Drafts, todo: Todo)
    requires db.Valid()
    requires todo.id in db.records && db.records[todo.id] == todo
    requires IsDirty(drafts, todo)
    ensures var e := Update(db, Some(todo.ownerId), RowUpdateForm(drafts, todo), false);
      && e.refreshed
      && e.db.records[todo.id] == todo.(title := CurrentDraft(drafts, todo))
      && CurrentDraft(drafts - {todo.id}, e.db.records[todo.id]) == CurrentDraft(drafts, todo)
  {
    var form := RowUpdateForm(drafts, todo);
    assert form["newTitle"] == CurrentDraft(drafts, todo);
  }

  /** Submitting a row's update form as anyone but its owner changes
      nothing in the store. */
  lemma SubmittingForeignRowChangesNothing(db: Db, drafts: Drafts, todo: Todo, session: Option<UserId>, storeFails: bool)
    requires db.Valid()
    requires todo.id in db.records && db.records[todo.id] == todo
    requires session != Some(todo.ownerId)
    ensures Update(db, session, RowUpdateForm(drafts, todo), storeFails).db == db
    ensures Delete(db, session, RowDeleteForm(todo), storeFails).db == db
  {
    var update := RowUpdateForm(drafts, todo);
    var delete := RowDeleteForm(todo);
  }

  /** The list component's state: the drafts, and the handlers that change
      them and call the server actions. */
  class TodoListState {
    var draftTitles: Drafts

    /** `useState({})`: no row is being edited. */
    constructor ()
      ensures draftTitles == map[]
    {
      draftTitles := map[];
    }

    /** `handleTitleChange`: the edited row's draft becomes the new value;
        every other row's draft is left as it was. */
    method HandleTitleChange(todoId: int, newTitle: string)
      modifies this
      ensures draftTitles == old(draftTitles)[todoId := newTitle]
    {
      draftTitles := draftTitles[todoId := newTitle];
    }

    /** `handleUpdate`: await the server action, then, if the submitted id
        parses, drop that row's draft, whatever the action did. */
    method HandleUpdate(store: TodoStore, session: Option<UserId>, form: FormData, storeFails: bool)
      requires store.Valid()
      modifies this, store
      ensures store.Valid()
      ensures store.Snapshot() == Update(old(store.Snapshot()), session, form, storeFails).db
      ensures draftTitles == match ParseIdField(form)
                             case Some(id) => old(draftTitles) - {id}
                             case None => old(draftTitles)
    {
      var _ := store.UpdateTodo(session, form, storeFails);
      var todoId := ParseIdField(form);
      if todoId.Some? {
        draftTitles := draftTitles - {todoId.value};
      }
    }

    /** `handleDelete`: await the server action; the drafts are untouched. */
    method HandleDelete(store: TodoStore, session: Option<UserId>, form: FormData, storeFails: bool)
      requires store.Valid()
      modifies store
      ensures store.Valid()
      ensures store.Snapshot() == Delete(old(store.Snapshot()), session, form, storeFails).db
      ensures draftTitles == old(draftTitles)
    {
      var _ := store.DeleteTodo(session, form, storeFails);
    }
  }
}
