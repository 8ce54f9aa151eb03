# XAP routing: code generator and firmware dispatcher

XAP is QMK's request/response protocol between a host and a keyboard. A
request packet has a 2-byte token, followed by one identifier byte for
each level of a tree of route tables. Routers are inner nodes. Commands
are leaves, and each command is handled by a C function. This project
models the two ends of that design.

- **The generator** is `lib/python/qmk/cli/xap/generate_qmk.py`. It walks
  the route definition tree, where every node has a `define` token and a
  `type`.
  - `_append_defines` emits the header lines: one
    `#define SCOPED_NAME id` per router or command.
  - `_append_routing_tables` and `_append_routing_table` emit the inline
    source: an `extern bool <name>_handler(...)` line per command, and one
    `static const xap_route_t <path>_routes[]` table per router, with one
    designated-initialiser entry per child.
  - Both passes build a node's scoped name from a shared `name_stack`
    list. The name is the upper-cased, `_`-joined chain of defines.
- **The dispatcher** is `quantum/xap/xap.c`.
  - `xap_receive` takes the token from the first two bytes and hands the
    rest to `xap_execute_route`, starting at the `root_routes` table.
  - `xap_execute_route` reads one identifier byte per level. It descends
    through `XAP_ROUTE` entries and calls the handler of an `XAP_EXECUTE`
    entry. For any other entry type it sends a failure response through
    `xap_respond_failure`.
  - `qmk_route_version` replies with a fixed version number.

Modules:

| file | module | contents |
|---|---|---|
| `wrappers.dfy` | `Wrappers` | `Option` |
| `sequences.dfy` | `Sequences` | generic facts about concatenation, used to locate blocks inside line lists; `Map` and `Flatten` |
| `text.dfy` | `Text` | ASCII `str.upper`, `str.lower` and `'_'.join` |
| `route_tree.dfy` | `RouteTree` | the route definition tree; index paths to its nodes |
| `generate_qmk.dfy` | `GenerateQmk` | the three generator functions, as methods, each proved against a function giving the lines it appends |
| `generate_qmk_properties.dfy` | `GenerateQmkProperties` | header order, where each table lies, table contents, children of unknown type, name agreement between header and tables |
| `generate_qmk_post_order.dfy` | `GenerateQmkPostOrder` | the inline output as a whole: one declaration per node in post-order, then the root table |
| `xap.dfy` | `Xap` | route tables, the dispatch decision, the reply buffers, and the endpoint that sends packets |
| `xap_properties.dfy` | `XapProperties` | dispatch described by the identifier path, the decision table of the shipped tables, reply layouts |

How the state is represented:

- **Generator.** The Python functions mutate the `lines` and `name_stack`
  lists they are given. In the model, each method takes the contents of
  both lists on entry and returns their contents on return.
- **Dispatcher.**
  - `xap_execute_route` has no state of its own, so it is a function
    returning an `Outcome`: nothing, a failure response, a handler call
    with a token and a payload, or a read past the end of the payload.
  - The reply builders fill an `XAP_EPSIZE` array.
  - `xap_send` appends the packet to the `sent` field of an `XapEndpoint`.

The C code does not check that enough bytes remain before it reads
`data[0]` or computes `data_len - 1` and `length - 2`. In the model,
running out of bytes is the outcome `ReadPastEnd`.
`Xap.XapEndpoint.Receive` requires that this outcome does not arise.
`XapProperties.ReadPastEndExactly` characterises the payloads that
produce it, for any route tables. For whole packets and the shipped
tables, `Xap.ReceiveOutcome` gives it for packets shorter than 3 bytes,
and `XapProperties.StaticDispatch` gives the rest.

## Model

| member | source | states |
|---|---|---|
| `GenerateQmk.AppendDefines` | lib/python/qmk/cli/xap/generate_qmk.py:58-72 | returns with the name stack as it was on entry, and appends exactly `Defines(stack, container)` to `lines` |
| `GenerateQmk.AppendRoutingTable` | lib/python/qmk/cli/xap/generate_qmk.py:75-91 | returns with the name stack as it was on entry, and appends exactly one table: header, one line per entry, `};` and a blank line |
| `GenerateQmk.AppendRoutingTables` | lib/python/qmk/cli/xap/generate_qmk.py:94-108 | returns with the name stack as it was on entry, and appends exactly `RoutingTables(stack, container)`: every child's declarations, then the container's own table |
| `Text.UpperIsUpper` | lib/python/qmk/cli/xap/generate_qmk.py:59 | a pushed `define.upper()` is already upper case |
| `Text.JoinOfUpperIsUpper` | lib/python/qmk/cli/xap/generate_qmk.py:63 | `'_'.join` of upper-case parts is upper case, so the `.upper()` applied after the join changes nothing |
| `GenerateQmkProperties.StepIn` | lib/python/qmk/cli/xap/generate_qmk.py:62-67 | stepping into child `i` pushes the parent's define onto the stack; the name, node, id and validity of a path continue from the child |
| `GenerateQmkProperties.PreOrderIsValidPaths` | lib/python/qmk/cli/xap/generate_qmk.py:60-70 | the pre-order listing holds exactly the index paths that reach a router or command through routers |
| `GenerateQmkProperties.PreOrderNoDuplicates` | lib/python/qmk/cli/xap/generate_qmk.py:60-70 | no node is listed twice in the pre-order |
| `GenerateQmkProperties.DefinesFollowPreOrder` | lib/python/qmk/cli/xap/generate_qmk.py:58-72 | with blank lines dropped, the header is one `#define NAME id` per named node, in pre-order, with siblings in `routes` order; NAME is the scoped name and id the node's key in its parent |
| `GenerateQmkProperties.RouterBlockInDefines` | lib/python/qmk/cli/xap/generate_qmk.py:64-68 | each router's define line, then a blank line, then its whole subtree's defines, then a blank line, appear as one contiguous block of the header |
| `GenerateQmkProperties.SubtreeTablesBeforeTable` | lib/python/qmk/cli/xap/generate_qmk.py:96-108 | the complete output for any router subtree lies before the top-level container's table |
| `GenerateQmkProperties.DeclarationBeforeRootTable` | lib/python/qmk/cli/xap/generate_qmk.py:96-108 | every router's table and every command's extern line lies before the top-level container's table |
| `GenerateQmkProperties.PostOrder` | lib/python/qmk/cli/xap/generate_qmk.py:96-108 | for any router on a path and any node below it, the descendant's table or extern line comes before that router's table |
| `GenerateQmkPostOrder.RoutingTablesFollowPostOrder` | lib/python/qmk/cli/xap/generate_qmk.py:94-108 | the inline output is exactly, for each router and command in post-order, its declaration followed by one blank line (lines 102 and 105), and then the container's own table (line 108). A router's declaration is its table, a command's is its `extern` line |
| `GenerateQmkPostOrder.PostOrderIsValidPaths` | lib/python/qmk/cli/xap/generate_qmk.py:96-106 | the post-order listing holds exactly the index paths that reach a router or command through routers |
| `GenerateQmkPostOrder.PostOrderNoDuplicates` | lib/python/qmk/cli/xap/generate_qmk.py:96-106 | no node is listed twice in the post-order, so nothing is declared twice |
| `GenerateQmkProperties.EmittedChildren` | lib/python/qmk/cli/xap/generate_qmk.py:79-87 | lists exactly the positions of router and command children, in increasing order |
| `GenerateQmkProperties.TableListsChildren` | lib/python/qmk/cli/xap/generate_qmk.py:75-91 | a table is its header, one entry per router or command child in `routes` order, keyed by that child's scoped name, then `};` and a blank line |
| `GenerateQmkProperties.TableEntryLine` | lib/python/qmk/cli/xap/generate_qmk.py:79-87 | line `1 + j` of a table is the entry of the `j`-th router or command child, keyed by its scoped name: for a router the `XAP_ROUTE` form naming `<name>_routes` (lower case) and its sizeof length, for a command the `XAP_EXECUTE` form naming `&<name>_handler`; `.is_secure` is 1 exactly when `secure` is the string `'true'`, so a boolean `true` gives 0 |
| `GenerateQmkProperties.UnknownChildIgnored` | lib/python/qmk/cli/xap/generate_qmk.py:58-108 | deleting a child whose type is neither router nor command from `routes` leaves the header, the container's table and the whole inline output unchanged |
| `GenerateQmkProperties.CrossArtifactAgreement` | lib/python/qmk/cli/xap/generate_qmk.py:63-104 | every named node's define line is in the header, and its table entry is in the inline source under the same scoped name. A router's table header carries that name lower-cased; a command's extern line carries it too |
| `GenerateQmkProperties.DefineInHeader` | lib/python/qmk/cli/xap/generate_qmk.py:62-70 | the define line of every named node is in the header |
| `GenerateQmkProperties.EntryInTables` | lib/python/qmk/cli/xap/generate_qmk.py:81-87 | the table entry of every named node is in the inline source |
| `GenerateQmkProperties.AncestorsAllUpper` | lib/python/qmk/cli/xap/generate_qmk.py:59 | every name pushed on the stack while walking is upper case |
| `Xap.SizeofLen` | quantum/xap/xap.c:98-99 | `sizeof(t)/sizeof(t[0])` stored in a `uint8_t` never exceeds the table's length, and equals it below 256 |
| `Xap.Act` | quantum/xap/xap.c:114-128 | an entry not descended into gives no action when it is a router or has a NULL handler; a failure response exactly when its type is neither route nor execute; and, for an execute entry with a handler, exactly a call of that handler with the same token and the bytes after its id |
| `Xap.ExecuteRoute` | quantum/xap/xap.c:109-130 | an id at or beyond `max_routes` does nothing. The token is passed unchanged to a handler or a failure response. A handler receives a proper suffix of the payload |
| `Xap.ReceiveOutcome` | quantum/xap/xap.c:132-137 | fewer than 3 bytes read past the end; the token is bytes 0-1, least significant first; a handler receives a suffix of the packet that starts after byte 2 |
| `Xap.Zeros` | quantum/xap/xap.c:80 | `= {0}` fills the buffer with zeros |
| `Xap.XapEndpoint.Send` | quantum/xap/xap.c:37 | records the first `length` bytes of the buffer as one packet sent |
| `Xap.XapEndpoint.RespondFailure` | quantum/xap/xap.c:102-107 | sends exactly one `XAP_EPSIZE` packet: the token, status 0, zeros |
| `Xap.XapEndpoint.QmkRouteVersion` | quantum/xap/xap.c:78-85 | sends exactly one `XAP_EPSIZE` packet: the token, 0x01, 0x12345678 little-endian, zeros |
| `Xap.XapEndpoint.CallHandler` | quantum/xap/xap.c:77-94 | `qmk_route_version` sends its reply; the two empty handlers send nothing |
| `Xap.XapEndpoint.Receive` | quantum/xap/xap.c:109-137 | the packets sent are exactly those of the dispatch outcome: one failure response, one version reply, or none |
| `XapProperties.WalkDecides` | quantum/xap/xap.c:111-124 | when the first `k` bytes lead through descending routers to an entry that is not descended into, the dispatcher acts on that entry with the token unchanged and the payload minus exactly `k` bytes |
| `XapProperties.DecisionFromWalk` | quantum/xap/xap.c:111-127 | every handler call and failure response comes from an entry reached by some first `k` bytes |
| `XapProperties.OutOfRangeIgnored` | quantum/xap/xap.c:111-112 | an id at or beyond its table's length, at any depth, makes the dispatcher do nothing |
| `XapProperties.ReadPastEndExactly` | quantum/xap/xap.c:111-118 | the dispatcher reads past the payload exactly when the payload is empty or all of it leads to a descending router |
| `XapProperties.StaticTablesIndexed` | quantum/xap/xap.c:88-100 | each designated initialiser puts its entry at the slot its identifier names; both routers carry their table's length |
| `XapProperties.StaticDispatch` | quantum/xap/xap.c:88-137 | the shipped tables' whole decision: subsystem byte, then route byte, then handler, with the token and the bytes after byte 3 |
| `XapProperties.NoFailureResponse` | quantum/xap/xap.c:88-100 | no packet makes the shipped tables send a failure response |
| `XapProperties.QmkRouteVersionRoute` | quantum/xap/xap.c:92-100 | `qmk_route_version` is called exactly when bytes 2 and 3 are 0x01 and 0x01; it gets the packet's token and the bytes after them |
| `XapProperties.TokenRoundTrip` | quantum/xap/xap.c:81 | the token written into a reply's first two bytes reads back as the same token |
| `XapProperties.Le32RoundTrip` | quantum/xap/xap.c:83 | the 32-bit store reads back as the same value |
| `XapProperties.FailureReplyLayout` | quantum/xap/xap.c:102-106 | the failure packet is `XAP_EPSIZE` bytes: the token, status 0, and zeros after that |
| `XapProperties.VersionReplyLayout` | quantum/xap/xap.c:78-84 | the version packet is `XAP_EPSIZE` bytes: the token, 0x01, then 0x12345678 in bytes 3-6, and zeros after that |
| `XapProperties.VersionRequestAnswered` | quantum/xap/xap.c:78-137 | a packet whose bytes 2 and 3 are 0x01 and 0x01 makes the firmware send exactly one packet, the version reply carrying the request's token |

## Left out

- The CLI subcommands `xap_generate_qmk_inc` and `xap_generate_qmk_h`
  (lib/python/qmk/cli/xap/generate_qmk.py:111-156): loading the
  definitions, joining lines, writing files, `.bak` renaming and
  printing. They are I/O.
- The licence banner with the current year and the ASCII-art banner.
  They are constant prefix lines that the walks never read.
- Loading the definitions from hjson. `latest_xap_defs` is not part of
  this model, and the tree arrives already parsed.
  - A node without a `define`, `type` or `routes` key would raise
    `KeyError` in Python. Here every node has all three, with `routes`
    empty for leaves.
  - A `routes` mapping is a list in its iteration order.
  - A `type` other than `router` or `command` is kept as it is, so the
    ignored branches are modelled.
- `Text.Upper`, `Text.Lower`: model ASCII case mapping only, not
  Python's full Unicode `str.upper`/`str.lower`.
- `GenerateQmk.AppendDefines`, `GenerateQmk.AppendRoutingTable`,
  `GenerateQmk.AppendRoutingTables`: do not
  model aliasing of the lists.
  - Each Python function mutates the list objects it is given. Here the
    contents go in and come out as values.
  - The recursive calls get the copy `name_stack[:-1]`. The copy's final
    contents are discarded, which matches Python, since the caller never
    sees the copy again.
  - The mutable default `name_stack=[]` is shared between top-level
    calls. Balance (`nameStack' == nameStack`) shows that it is empty
    again after every call.
- `DUMP_XAP_DATA` and the console output it produces.
- The USB transport behind `xap_send`. `Xap.XapEndpoint.Send` only
  records the packet.
- C representation details:
  - the bitfield layout and the `_Static_assert`;
  - the union and the function pointers, which become datatype
    constructors and the `Handler` names;
  - alignment of the pointer-cast stores.
- `Xap.XapEndpoint.RespondFailure`, `Xap.XapEndpoint.QmkRouteVersion`,
  `Xap.TokenOf`, `Xap.ReceiveOutcome`: assume a little-endian target for
  the native `uint16_t` and `uint32_t` stores and for the token read
  through a `xap_token_t *` cast.
- `Xap.XapEndpoint.constructor`: requires `7 <= XAP_EPSIZE < 256`, which
  is the endpoint's `Valid()` and what every reply method requires.
  - `XAP_EPSIZE` comes from `usb_descriptor.h`, which is not part of this
    model.
  - The reply writes reach byte 6.
  - `xap_send` takes a `uint8_t` length, which would truncate a larger
    `sizeof`.
- `Xap.ExecuteRoute`: ignores `is_secure`. The dispatcher never reads it,
  and the flag is kept in `Route` only.
- `quantum/xap/xap_handlers.c` and `quantum/xap/xap.h` are not part of
  this model.
- Signature mismatches between files are not modelled. Each file is
  modelled on its own terms: the generated `extern bool` handlers
  against the `void` handlers in `xap.c`, and `xap_send` and
  `xap_respond_failure` against their other declarations.
- Whether the generated C compiles is not modelled. The model deals with
  the text of the generated lines and the names in them.
