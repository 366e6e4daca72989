/** A task as `gather` and `race` see it. */
module Tasks {

  /** How a task ended. */
  datatype Ending = Value(v: int) | Exception(e: int)

  datatype Task = Unstarted | Suspended | Done(ending: Ending)
}
