/**
 * The command protocol as pure functions over the registry contents: the
 * `add` handler, the dispatcher and the id-echoing message handler. The
 * registry is the set of registered player names (the map behind it only
 * ever stores `true`).
 */
module Protocol {
  import opened Wrappers
  import opened Messages
  import opened Listings

  /** The reply to one command and the registry after it. */
  datatype Step = Step(reply: ResultMessage, names: set<string>)

  /** The payload sent back for one inbound message and the registry after it. */
  datatype Outcome = Outcome(payload: Option<ResultMessage>, names: set<string>)

  /** The method names the dispatcher recognises. */
  const Commands: set<string> := {"hello", "myparams", "add", "list"}

  /** The reply carries exactly one of a result and an error. */
  predicate Exclusive(m: ResultMessage)
  {
    m.result.Some? != m.error.Some?
  }

  /**
   * `add`: checks the arity first, then that the single param is a string,
   * and only then registers that name.
   */
  function AddCommand(names: set<string>, params: seq<Value>): (r: Step)
    // arity is checked before the type
    ensures |params| != 1 ==> r.reply.error == Some(ArityError)
    ensures |params| == 1 && !params[0].Str? ==> r.reply.error == Some(TypeError)
    // it succeeds exactly on one string param, and then acknowledges with `true`
    ensures r.reply.error.None? <==> exists name :: params == [Str(name)]
    ensures r.reply.error.None? ==> r.reply.result == Some(Flag(true))
    ensures r.reply.error.Some? ==> r.reply.result.None? && r.names == names
    // set insertion: that one name is added, no other name is added or removed
    ensures forall n :: n in r.names <==> n in names || params == [Str(n)]
    ensures r.reply.id == 0
  {
    if |params| != 1 then Step(ErrorOf(ArityError), names)
    else match params[0]
      case Str(name) => Step(ResultOf(Flag(true)), names + {name})
      case _ => Step(ErrorOf(TypeError), names)
  }

  /**
   * The dispatcher. `listing` is the order in which the registry's names are
   * enumerated for `list`; the map leaves that order unspecified, so it is
   * an input here.
   */
  function HandleCommand(names: set<string>, cmd: string, params: seq<Value>, listing: seq<string>): (r: Step)
    // only `add` may change the registry
    ensures cmd != "add" ==> r.names == names
    ensures cmd == "hello" ==> r.reply.result == Some(Text(Greeting)) && r.reply.error.None?
    ensures cmd == "myparams" ==> r.reply.result == Some(Rendered(params)) && r.reply.error.None?
    ensures cmd == "add" ==> r == AddCommand(names, params)
    ensures cmd == "list" ==> r.reply.result == Some(Names(listing)) && r.reply.error.None?
    ensures cmd !in Commands ==> r.reply.error == Some(NotFoundError) && r.reply.result.None?
    ensures Exclusive(r.reply) && r.reply.id == 0
  {
    match cmd
    case "hello" => Step(ResultOf(Text(Greeting)), names)
    case "myparams" => Step(ResultOf(Rendered(params)), names)
    case "add" => AddCommand(names, params)
    case "list" => Step(ResultOf(Names(listing)), names)
    case _ => Step(ErrorOf(NotFoundError), names)
  }

  /**
   * One inbound message: `None` stands for a payload that did not decode,
   * answered with an empty payload (also `None`) and no dispatch.
   */
  function HandleMessage(names: set<string>, decoded: Option<IncomingMessage>, listing: seq<string>): (r: Outcome)
    ensures decoded.None? ==> r.payload.None? && r.names == names
    ensures decoded.Some? ==> r.payload.Some? && r.payload.value.id == decoded.value.id
    ensures decoded.Some? ==>
      var step := HandleCommand(names, decoded.value.command, decoded.value.params, listing);
      r.payload.value.result == step.reply.result &&
      r.payload.value.error == step.reply.error &&
      r.names == step.names
  {
    match decoded
    case None => Outcome(None, names)
    case Some(m) =>
      var step := HandleCommand(names, m.command, m.params, listing);
      Outcome(Some(step.reply.(id := m.id)), step.names)
  }

  /** Re-adding a name is idempotent: the same reply, and the registry does not change again. */
  lemma AddIdempotent(names: set<string>, params: seq<Value>)
    ensures var once := AddCommand(names, params);
            AddCommand(once.names, params) == once
  {
  }

  /** Every command that reports an error leaves the registry as it was. */
  lemma FailedCommandKeepsRegistry(names: set<string>, cmd: string, params: seq<Value>, listing: seq<string>)
    ensures HandleCommand(names, cmd, params, listing).reply.error.Some? ==>
              HandleCommand(names, cmd, params, listing).names == names
  {
  }

  /** No command removes a name, and none adds more than one. */
  lemma RegistryOnlyGrows(names: set<string>, cmd: string, params: seq<Value>, listing: seq<string>)
    ensures var after := HandleCommand(names, cmd, params, listing).names;
            names <= after && |after| <= |names| + 1
  {
  }

  /**
   * `list` leaves the registry alone and answers the registry's enumeration.
   * That the enumeration is a listing is what Server.SprintPlayerList
   * guarantees; this lemma adds that the reply is as long as the registry.
   */
  lemma ListReplyIsSnapshot(names: set<string>, params: seq<Value>, listing: seq<string>)
    requires IsListing(listing, names)
    ensures var r := HandleCommand(names, "list", params, listing);
            && r.names == names
            && r.reply.result.Some? && r.reply.result.value.Names?
            && IsListing(r.reply.result.value.names, names)
            && |r.reply.result.value.names| == |names|
  {
    ListingLength(listing, names);
  }

  /**
   * After `add` of any name, a `list` shows that name, and the listing is as
   * long as the old registry with that name added (one longer for a new name,
   * unchanged when re-adding).
   */
  lemma AddThenListShowsName(names: set<string>, name: string, listing: seq<string>, params: seq<Value>)
    requires IsListing(listing, AddCommand(names, [Str(name)]).names)
    ensures var added := HandleCommand(names, "add", [Str(name)], []);
            var listed := HandleCommand(added.names, "list", params, listing);
            && added.reply.result == Some(Flag(true))
            && listed.reply.result == Some(Names(listing))
            && name in listing
            && |listing| == |names + {name}|
            && (name !in names ==> |listing| == |names| + 1)
  {
    ListingLength(listing, names + {name});
  }

  /** An unrecognised method is answered with the not-found error and the request's own id. */
  lemma UnknownMethodExample(names: set<string>, listing: seq<string>)
    ensures HandleMessage(names, Some(IncomingMessage(7, "frobnicate", [Num(1.0)])), listing)
            == Outcome(Some(ResultMessage(7, None, Some("command not found."))), names)
  {
  }
}
