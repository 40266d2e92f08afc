/**
 * The records the driver queues for the user-mode engine: debug messages, process
 * creations and process terminations, and `DriverMessages`, the three vectors that carry them.
 */
module DriverIpc {
  import opened Base

  /** A process the driver saw start, or the snapshot found running. */
  datatype ProcessStarted = ProcessStarted(imageName: string, commandLine: string, parentPid: uint64, pid: uint64)

  /** A process the driver saw exit. */
  datatype ProcessTerminated = ProcessTerminated(pid: uint64)

  /** `DriverMessages`: one vector per kind of event, in the order the events were queued. */
  datatype DriverMessages = DriverMessages(
    messages: seq<string>,
    processCreations: seq<ProcessStarted>,
    processTerminations: seq<ProcessTerminated>)
  {
    /** All three vectors are empty. */
    predicate HasNone()
    {
      messages == [] && processCreations == [] && processTerminations == []
    }

    /** Vector by vector, `other`'s events after this one's: what `Vec::append` does to each. */
    function Then(other: DriverMessages): (r: DriverMessages)
      ensures r.HasNone() <==> HasNone() && other.HasNone()
    {
      DriverMessages(
        messages + other.messages,
        processCreations + other.processCreations,
        processTerminations + other.processTerminations)
    }
  }

  /** `DriverMessages::default()` and what `mem::take` leaves behind. */
  function NoMessages(): (r: DriverMessages)
    ensures r.HasNone()
  {
    DriverMessages([], [], [])
  }

  /** Appending batches is associative, and the empty batch is neutral on both sides. */
  lemma ThenLaws(a: DriverMessages, b: DriverMessages, c: DriverMessages)
    ensures a.Then(b).Then(c) == a.Then(b.Then(c))
    ensures a.Then(NoMessages()) == a && NoMessages().Then(a) == a
  {
  }
}
