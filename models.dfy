/**
 * The record types of the todo service: the status code with its display
 * label, and the ToDo and Tag records with their "is the zero value" tests.
 */
module Models {
  import opened Wrappers

  /** A status is a plain integer code; any integer can be stored. */
  type ToDoStatus = int

  /** The named codes, numbered from 0 in declaration order. */
  const Open: ToDoStatus := 0
  const InProgress: ToDoStatus := 1
  const Closed: ToDoStatus := 2

  /** The display label of a status code. Total: every code outside the three named ones reads "Unknown". */
  function StatusString(s: ToDoStatus): (name: string)
    ensures name == "Open" <==> s == Open
    ensures name == "In Progress" <==> s == InProgress
    ensures name == "Closed" <==> s == Closed
    ensures name == "Unknown" <==> !(Open <= s <= Closed)
  {
    match s
    case 0 => "Open"
    case 1 => "In Progress"
    case 2 => "Closed"
    case _ => "Unknown"
  }

  datatype Tag = Tag(id: int, name: string, createdAt: string) {

    /** Deep equality with the zero Tag, the "not found" sentinel. */
    function IsEmpty(): (empty: bool)
      ensures empty <==> id == 0 && name == "" && createdAt == ""
    {
      this == EmptyTag
    }
  }

  /**
   * `tags` is None for a nil slice and Some(ts) for a non-nil one, so that
   * a nil list and an empty list stay apart, as deep equality keeps them.
   */
  datatype ToDo = ToDo(id: int, title: string, description: string, createdAt: string,
                       updatedAt: string, status: ToDoStatus, tags: Option<seq<Tag>>) {

    /** Deep equality with the zero ToDo, the "not found" sentinel. */
    function IsEmpty(): (empty: bool)
      ensures empty <==> id == 0 && title == "" && description == "" && createdAt == ""
                         && updatedAt == "" && status == Open && tags == None
    {
      this == EmptyToDo
    }
  }

  /** The zero values. */
  const EmptyTag: Tag := Tag(0, "", "")
  const EmptyToDo: ToDo := ToDo(0, "", "", "", "", Open, None)

  /** The cases the package's unit tests check. */
  lemma ModelExamples()
    ensures StatusString(Open) == "Open" && StatusString(InProgress) == "In Progress"
    ensures StatusString(Closed) == "Closed"
    ensures StatusString(10) == "Unknown" && StatusString(-1) == "Unknown"
    ensures !ToDo(12, "test", "test description", "2020-06-12T14:05:26Z", "2020-06-12T14:05:26Z",
                  Open, Some([])).IsEmpty()
    ensures !Tag(1, "tag", "2020-06-12T14:05:26Z").IsEmpty()
    ensures !ToDo(0, "", "", "", "", Open, Some([])).IsEmpty()
  {
  }
}
