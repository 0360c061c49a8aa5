/** The raw engagement log shared by the dataset builder and the aggregate features. */
module Interactions {

  /** One row of the interaction log: a user's engagement with an item in a session.
      `timestamp` is in seconds; `grade` is the `label` column, the graded relevance
      (0 no engagement, 1 click, 2 short play, 3 long play). */
  datatype Event = Event(
    userId: string,
    itemId: string,
    sessionId: string,
    timestamp: int,
    device: string,
    grade: int,
    watchMinutes: int)

  /** Every item the user has any event for, in any session and with any label. */
  function History(events: seq<Event>, user: string): (h: set<string>)
    ensures forall i :: 0 <= i < |events| && events[i].userId == user ==> events[i].itemId in h
    ensures forall it :: it in h ==> exists i :: 0 <= i < |events| && events[i].userId == user && events[i].itemId == it
  {
    set i | 0 <= i < |events| && events[i].userId == user :: events[i].itemId
  }
}
