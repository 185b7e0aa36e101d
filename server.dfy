/**
 * The server's shared state and its handlers as imperative code: the
 * player list is updated in place by `add`, and `list` copies its names
 * into a freshly sized array one by one. Every method is tied to the pure
 * functions of module Protocol.
 */
module Echoserver {
  import opened Wrappers
  import opened Messages
  import opened Listings
  import Protocol

  class Server {
    /** The registered player names (the key set of the map, which only ever stores `true`). */
    var playerlist: set<string>

    /** The server starts with an empty player list. */
    constructor ()
      ensures playerlist == {}
    {
      playerlist := {};
    }

    /** The `add` handler: validate, then insert the name in place. */
    method DoAddCmd(params: seq<Value>) returns (out: ResultMessage)
      modifies this
      ensures Protocol.Step(out, playerlist) == Protocol.AddCommand(old(playerlist), params)
    {
      if |params| != 1 {
        return ErrorOf(ArityError);
      }
      if !params[0].Str? {
        return ErrorOf(TypeError);
      }
      var name := params[0].s;
      playerlist := playerlist + {name};
      out := ResultOf(Flag(true));
    }

    /**
     * The `list` snapshot: an array as long as the registry is large, filled
     * with the names in whatever order the registry yields them.
     */
    method SprintPlayerList() returns (s: seq<string>)
      ensures IsListing(s, playerlist)
      ensures |s| == |playerlist|
    {
      var a := new string[|playerlist|];
      var i := 0;
      var unvisited := playerlist;
      while unvisited != {}
        invariant unvisited <= playerlist
        invariant i + |unvisited| == a.Length
        invariant Distinct(a[..i])
        invariant forall k :: 0 <= k < i ==> a[k] in playerlist && a[k] !in unvisited
        invariant forall x :: x in playerlist && x !in unvisited ==> x in a[..i]
        decreases unvisited
      {
        var key :| key in unvisited;
        a[i] := key;
        assert a[..i + 1] == a[..i] + [key];
        i := i + 1;
        unvisited := unvisited - {key};
      }
      s := a[..];
    }

    /** The dispatcher: the same case analysis as Protocol.HandleCommand, on the live registry. */
    method HandleCommand(cmd: string, params: seq<Value>) returns (out: ResultMessage)
      modifies this
      ensures exists listing ::
                IsListing(listing, old(playerlist)) &&
                Protocol.Step(out, playerlist) == Protocol.HandleCommand(old(playerlist), cmd, params, listing)
    {
      ghost var listing := SomeListing(playerlist);
      match cmd
      case "hello" =>
        out := ResultOf(Text(Greeting));
      case "myparams" =>
        out := ResultOf(Rendered(params));
      case "add" =>
        out := DoAddCmd(params);
      case "list" =>
        var names := SprintPlayerList();
        listing := names;
        out := ResultOf(Names(names));
      case _ =>
        out := ErrorOf(NotFoundError);
      assert Protocol.Step(out, playerlist) == Protocol.HandleCommand(old(playerlist), cmd, params, listing);
    }

    /**
     * One inbound message. `decoded` is the decoder's verdict on the raw
     * bytes (`None` when they are not a well-formed request); the answer
     * `None` is the empty payload.
     */
    method HandleMessage(decoded: Option<IncomingMessage>) returns (payload: Option<ResultMessage>)
      modifies this
      ensures exists listing ::
                IsListing(listing, old(playerlist)) &&
                Protocol.Outcome(payload, playerlist) == Protocol.HandleMessage(old(playerlist), decoded, listing)
    {
      if decoded.None? {
        ghost var listing := SomeListing(playerlist);
        assert Protocol.Outcome(None, playerlist) == Protocol.HandleMessage(playerlist, decoded, listing);
        return None;
      }
      var j := decoded.value;
      var result := HandleCommand(j.command, j.params);
      result := result.(id := j.id);
      payload := Some(result);
    }
  }
}
