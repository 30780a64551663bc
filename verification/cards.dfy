/**
  The card entity shared by the backend statistics and the frontend deadline monitor.

  The backend declares `status` and `priority` as plain strings and the frontend as
  string unions; every piece of code modelled here only compares them with the
  literals 'TODO'/'DONE' and 'LOW'/'MEDIUM'/'HIGH', so any other string is
  collapsed into one catch-all variant.  Timestamps are integer milliseconds.
 */
module Cards {
  import opened Wrappers

  datatype Status = TODO | DONE | OtherStatus

  datatype CardPriority = LOW | MEDIUM | HIGH | OtherPriority

  datatype Card = Card(
    id: string,
    title: string,
    description: string,
    priority: CardPriority,
    status: Status,
    deadline: Option<int>,   // absolute time in milliseconds, when set
    listId: string
  )
}
