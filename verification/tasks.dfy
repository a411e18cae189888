/** The task record of the to-do widget and the seed list it starts from. */
module Tasks {

  /** One to-do item: a numeric id, a title, the key of its category and its completion flag. */
  datatype Task = Task(id: int, title: string, category: string, completed: bool)

  /** The same task with its completion flag inverted. */
  function Flip(t: Task): (u: Task)
    ensures u.id == t.id && u.title == t.title && u.category == t.category
    ensures u.completed != t.completed
  {
    t.(completed := !t.completed)
  }

  /** The dummy tasks the page is loaded with. */
  const InitialTasks: seq<Task> := [
    Task(1, "Daily meeting with team", "Business", false),
    Task(2, "Pay for rent", "Personal", true),
    Task(3, "Check emails", "Personal", false),
    Task(4, "Lunch with Emma", "Business", false),
    Task(5, "Meditation", "Personal", false),
    Task(6, "Prepare presentation", "Business", true),
    Task(7, "Grocery shopping", "Personal", false),
    Task(8, "Call insurance company", "Business", false),
    Task(9, "Read a chapter of a book", "Personal", true),
    Task(10, "Write report", "Business", false)
  ]
}
