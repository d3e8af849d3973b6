/**
 * What the screens share about talking to the server: the network as a request sees it,
 * how a handler ends, and when a local row mirrors a server event.
 */
module Network {
  import opened Js
  import LocalStore
  import ServerStore

  /** Whether the server is reachable, and which user the stored token identifies
      (`None`: no token, so every protected route answers 401). */
  datatype Link = Link(reachable: bool, caller: Option<ServerStore.Id>)

  /** A request is served: the server is reachable and the token names a user. */
  predicate Authorized(link: Link) {
    link.reachable && link.caller.Some?
  }

  /** How a handler ended: refused by the owner gate, refused by its own input check,
      ended by an awaited call that threw (any status other than 2xx throws), or run to
      the end. */
  datatype Ending = Denied | Rejected | Failed | Done

  /** A local `events` row shows the same event as a server document: same title,
      description, dates and owner. */
  predicate Mirrors(doc: ServerStore.EventDoc, row: LocalStore.EventRow) {
    row.title == doc.title && row.description == doc.description
    && row.startDate == doc.startDate && row.endDate == doc.endDate && row.userId == doc.owner
  }
}
