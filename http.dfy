/** What a handler sends back: the HTTP status and the `message` field of
    the JSON body. */
module Http {
  import opened Wrappers

  datatype Reply = Reply(status: int, message: string)

  /** The outcome of a handler's early-return checks: either one of them
      answered the request, or all passed and the handler goes on. */
  datatype Check = Pass | Stop(reply: Reply)

  /** Shorthand for a check that answers with `status` and `message`. */
  function Deny(status: int, message: string): Check
  {
    Stop(Reply(status, message))
  }

  /** `error.message || fallback`: a caught error's message, or the
      handler's generic text when the message is empty. */
  function MessageOr(message: string, fallback: string): string
  {
    if message != "" then message else fallback
  }

  /** A 200 answer to a list request: the rows and their count, with the
      handler's "none found" message when there are none. */
  datatype Listing<T> = Listing(message: string, items: seq<T>, count: int)

  /** `!found || found.length === 0` answers an empty list with count 0
      and `noneFound`; otherwise the rows and their number. */
  function ListingOf<T>(found: Option<seq<T>>, noneFound: string): (l: Listing<T>)
    ensures l.count == |l.items|
    ensures (found.None? || found.value == []) <==> l == Listing(noneFound, [], 0)
    ensures found.Some? && found.value != [] ==> l.items == found.value && l.message == ""
  {
    if found.None? || found.value == [] then Listing(noneFound, [], 0)
    else Listing("", found.value, |found.value|)
  }
}
