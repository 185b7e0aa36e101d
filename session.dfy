/**
 * A sequence of inbound messages handled one after another against the
 * shared registry: which names end up registered.
 */
module Session {
  import opened Wrappers
  import opened Messages
  import opened Listings
  import Protocol

  /** The message `m` is a well-formed `add` of `name`. */
  predicate Adds(m: Option<IncomingMessage>, name: string)
  {
    m.Some? && m.value.command == "add" && m.value.params == [Str(name)]
  }

  /** The registry after handling `msgs` in order, starting from `names`. */
  ghost function Replay(names: set<string>, msgs: seq<Option<IncomingMessage>>): (after: set<string>)
    decreases |msgs|
  {
    if msgs == [] then names
    else Replay(Protocol.HandleMessage(names, msgs[0], SomeListing(names)).names, msgs[1..])
  }

  /**
   * A name is registered after a session exactly when it was registered
   * before or some message of the session was a well-formed `add` of it:
   * names are never removed, and nothing else registers one.
   */
  lemma {:induction false} ReplayRegisters(names: set<string>, msgs: seq<Option<IncomingMessage>>, name: string)
    ensures name in Replay(names, msgs) <==>
              name in names || exists i :: 0 <= i < |msgs| && Adds(msgs[i], name)
    decreases |msgs|
  {
    if msgs != [] {
      var next := Protocol.HandleMessage(names, msgs[0], SomeListing(names)).names;
      assert name in next <==> name in names || Adds(msgs[0], name);
      ReplayRegisters(next, msgs[1..], name);
      if name in Replay(names, msgs) && name !in names && !Adds(msgs[0], name) {
        var i :| 0 <= i < |msgs[1..]| && Adds(msgs[1..][i], name);
        assert Adds(msgs[i + 1], name);
      }
      if exists i :: 0 <= i < |msgs| && Adds(msgs[i], name) {
        var i :| 0 <= i < |msgs| && Adds(msgs[i], name);
        if i > 0 {
          assert Adds(msgs[1..][i - 1], name);
        }
      }
    }
  }
}
