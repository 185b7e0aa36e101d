# ninjaServer echoserver — command protocol model

A Dafny model of the command protocol layer of the ninjaServer websocket
server (`echoserver/echoserver.go`). A client sends a request envelope
`{ID, Method, Params}`. The server decodes it, dispatches on the method name,
copies the request `ID` into the result envelope `{id, result?, error?}` and
sends it back. There are four commands:

- `hello` answers with a fixed greeting, whatever the params.
- `myparams` echoes the params back as text.
- `add` registers a player name. It takes exactly one string param and
  checks the arity before the type.
- `list` returns a snapshot of every registered name.

Any other method name is answered with `"command not found."`.

The registry is the package-level map `playerlist` from name to `true`. Because
it only ever stores `true`, it is modelled as a `set<string>`.

Modules:

- `Wrappers`: `Option`.
- `Messages`: parameter values (`Value`), result payloads (`Answer`), the two
  envelopes, and the four reply strings.
- `Listings`: what a `list` snapshot is (`IsListing`: every registered name
  exactly once, in any order), with the lemmas that a snapshot's length is the
  registry size and that any two snapshots are permutations of each other.
- `Protocol`: the handlers as pure functions of the registry contents
  (`AddCommand`, `HandleCommand`, `HandleMessage`), and lemmas about them.
- `Echoserver`: class `Server`, which owns `playerlist`. `DoAddCmd` updates the
  set in place. `SprintPlayerList` fills a pre-sized array from the set with an
  index counter. `HandleCommand` and `HandleMessage` dispatch on the live
  registry. Each method's postcondition ties it to the matching `Protocol`
  function.
- `Session`: a sequence of messages handled in turn, and which names end up
  registered.

Go leaves map iteration order unspecified. So the pure `HandleCommand` and
`HandleMessage` take the enumeration order (`listing`) as an input. The
methods promise that some valid listing of the registry explains their result.

The JSON decoder is abstracted to its verdict, an `Option<IncomingMessage>`.
`None` means the bytes did not decode. The empty response payload that
follows is also `None`.

Notes on the code:

- The echo command is `myparams` (echoserver/echoserver.go:100).
- The file has no `move`/`update` commands and no entity state. The
  `gamestate` import is commented out (echoserver/echoserver.go:7).
- A decode failure is answered with an empty payload
  (echoserver/echoserver.go:72), which `HandleWs` writes back
  (echoserver/echoserver.go:43).
- Re-adding a registered name answers `true` and leaves the registry
  unchanged.

## Model

| member | source | states |
|---|---|---|
| `Protocol.AddCommand` | echoserver/echoserver.go:112-132 | A wrong param count gives `"expected 1 parameter."`, checked before the type. A single non-string param gives `"Parameter Type error"`. It succeeds exactly when the params are one string, and then answers `true`. Every error leaves the registry unchanged and sets no result. Afterwards a name is registered iff it was before or it is the added name. |
| `Protocol.HandleCommand` | echoserver/echoserver.go:95-110 | Only `add` can change the registry. `hello` answers the greeting and `myparams` answers the rendered params, whatever the params. `add` is exactly `AddCommand`. `list` answers the listing. Any other name answers `"command not found."` with no result. Every reply carries exactly one of result and error. |
| `Protocol.HandleMessage` | echoserver/echoserver.go:64-90 | A payload that did not decode gets the empty reply and the registry is unchanged. A decoded request gets a reply whose id is the request's id, and whose result, error and registry effect are those of dispatching its method and params. |
| `Protocol.AddIdempotent` | echoserver/echoserver.go:128-131 | Repeating an `add` gives the same reply and leaves the registry as the first `add` left it. |
| `Protocol.FailedCommandKeepsRegistry` | echoserver/echoserver.go:95-126 | Any command answered with an error (unknown method, wrong arity, wrong type) leaves the registry unchanged. |
| `Protocol.RegistryOnlyGrows` | echoserver/echoserver.go:102-131 | No command removes a registered name, and none adds more than one. |
| `Protocol.ListReplyIsSnapshot` | echoserver/echoserver.go:104-141 | `list` leaves the registry unchanged and answers the registry's own enumeration; given that enumeration is a listing (which `Echoserver.Server.SprintPlayerList` guarantees), the reply is exactly as long as the registry is large. |
| `Protocol.AddThenListShowsName` | echoserver/echoserver.go:102-141 | After a successful `add` of any name, a `list` answers a listing that contains the name and is as long as the old registry plus that name (one longer for a new name, unchanged for a registered one). |
| `Protocol.UnknownMethodExample` | echoserver/echoserver.go:77-81 | A decoded request with method `frobnicate` and id 7 is answered with exactly id 7, error `"command not found."`, no result, and the registry unchanged. |
| `Listings.ListingLength` | echoserver/echoserver.go:134-141 | A sequence that holds each registered name exactly once is as long as the registry is large. |
| `Listings.ListingsArePermutations` | echoserver/echoserver.go:137-140 | Two listings of the same registry hold the same names with the same multiplicities. Only their order can differ. |
| `Listings.SomeListing` | echoserver/echoserver.go:137 | Every registry has a listing, so enumerating the map's keys always succeeds. |
| `Echoserver.Server.constructor` | echoserver/echoserver.go:20 | The player list starts empty. |
| `Echoserver.Server.DoAddCmd` | echoserver/echoserver.go:112-132 | The reply and the updated player list are exactly what `Protocol.AddCommand` gives for the old player list. |
| `Echoserver.Server.SprintPlayerList` | echoserver/echoserver.go:134-142 | The returned names are a listing of the player list: each registered name exactly once, nothing else, as many entries as the registry has. |
| `Echoserver.Server.HandleCommand` | echoserver/echoserver.go:95-110 | The reply and the new player list are those of `Protocol.HandleCommand` on the old player list, for some valid listing of it. |
| `Echoserver.Server.HandleMessage` | echoserver/echoserver.go:64-90 | The payload and the new player list are those of `Protocol.HandleMessage` on the old player list, for some valid listing of it. |
| `Session.ReplayRegisters` | echoserver/echoserver.go:102-131 | After handling a sequence of messages in order, a name is registered iff it was registered before or one of the messages was a well-formed `add` of it. |

## Left out

- `HandleWs` (echoserver/echoserver.go:25-50) is left out. It covers the websocket upgrade, the blocking read/write loop, closing the connection and logging, which are transport I/O.
- JSON decoding and encoding are left out; they are a foreign library. Decoding is represented by its verdict, an `Option<IncomingMessage>`. Encoding, the `omitempty` tags and the logged marshal error are not modelled. The model assumes encoding a result envelope always succeeds.
- The text that Go's `fmt.Sprint` produces for `myparams` is left out; it is a foreign formatting call. The answer is kept symbolic as `Rendered(params)`.
- Map iteration order is left out because Go does not specify it. It enters the model as the `listing` input, constrained only by `IsListing`.
- Concurrent access to the global `playerlist` is left out. The code itself says the map is not concurrency safe. The model is one sequential `Server` object.
- Numeric details are left out: JSON numbers are modelled as `real`, not as 64-bit floats, and the request id is an unbounded `int`, not Go's `int`. Neither affects any modelled branch.
