/**
 * Client scenarios of the data layer, in the manner of its test suite; each
 * assertion follows from the operations' contracts alone.
 */
module Scenarios {
  import opened Wrappers
  import opened Models
  import opened Tables
  import opened Db

  /** Create a todo and a tag, associate them, read both ways. */
  method AssociateTagWithTodo() {
    var store := new Store();
    var todo := store.InsertTodo(ToDo(0, "first todo", "desc", "", "", Closed, None), 5);
    assert todo.id == 1 && todo.status == Open && todo.tags == None && !todo.IsEmpty();

    assert !IsIntegerLiteral("foo") by { assert "foo"[0] == 'f'; }
    var tag := store.InsertTag(Tag(0, "foo", ""), 0);
    assert tag.id == 1 && tag.name == "foo";

    var link := store.AssociateTag(tag.id, todo.id);
    assert link == 1;
    assert store.todoTags == [] + [Row(link, LinkCols(todo.id, tag.id))];
    AssociateThenJoin([], store.tags, link, todo.id, tag.id);
    LookupAt(store.tags, 0);
    assert JoinTags(store.todoTags, store.tags, todo.id) == [tag];

    var got := store.GetTodo(todo.id);
    assert got.tags == Some([tag]);

    var all := store.GetAllTodos();
    assert |all| == 1 && all[0].tags == None;
  }

  /** Delete, then look up: the zero ToDo without an error; a missing tag comes with ErrNoRows. */
  method DeleteThenGet() {
    var store := new Store();
    var todo := store.InsertTodo(ToDo(0, "t", "d", "", "", Open, None), 1);
    var n := store.DeleteTodo(todo.id);
    assert n == 1;
    var got := store.GetTodo(todo.id);
    assert got.IsEmpty();
    n := store.DeleteTodo(todo.id);
    assert n == 0;

    var tag, err := store.GetTag(7);
    assert tag.IsEmpty() && err == Some(ErrNoRows);
  }

  /**
   * Deleting the newest todo frees its rowid and leaves its association
   * rows behind, so the next todo inserted is given that rowid and comes
   * back carrying the deleted todo's tags.
   */
  method DeletedTodosTagsReattach() {
    var store := new Store();
    var first := store.InsertTodo(ToDo(0, "first", "", "", "", Open, None), 1);
    assert !IsIntegerLiteral("urgent") by { assert "urgent"[0] == 'u'; }
    var tag := store.InsertTag(Tag(0, "urgent", ""), 0);
    var link := store.AssociateTag(tag.id, first.id);
    assert store.todoTags == [] + [Row(link, LinkCols(first.id, tag.id))];
    AssociateThenJoin([], store.tags, link, first.id, tag.id);
    LookupAt(store.tags, 0);
    assert JoinTags(store.todoTags, store.tags, first.id) == [tag];

    var n := store.DeleteTodo(first.id);
    assert store.todos == [] && |store.todoTags| == 1;

    var second := store.InsertTodo(ToDo(0, "second", "", "", "", Open, None), 1);
    assert second.id == first.id;
    assert second.title == "second" && second.tags == Some([tag]);
  }

  /** An update to a status outside the named codes is stored as given and displays as "Unknown". */
  method UpdateToUnknownStatus() {
    var store := new Store();
    var todo := store.InsertTodo(ToDo(0, "t", "d", "", "", Open, None), 1);
    var updated := store.UpdateTodo(todo.id, todo.(status := 10), 3);
    assert updated.status == 10 && StatusString(updated.status) == "Unknown";
    assert updated.createdAt == todo.createdAt;

    var missing := store.UpdateTodo(99, todo, 0);
    assert missing.IsEmpty();
  }

  /** A tag name that reads as an integer comes back in the integer's own text. */
  method NumericTagName() {
    var store := new Store();
    StoredNameExamples();
    var tag := store.InsertTag(Tag(0, "007", ""), 0);
    assert tag.name == "7";
    var got, err := store.GetTag(tag.id);
    LookupAt(store.tags, 0);
    assert got.name == "7" && err == None;
  }
}
