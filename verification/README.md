# BTRx verification

BTRx is a small BitTorrent-like peer. A file is cut into pieces; nodes connect to one another in a full mesh, exchange
bit fields saying which pieces they hold, earmark the pieces each connection will fetch, and send requests and pieces.
This project models that exchange, the piece cache and the bit field under it, and proves what the program's parts
promise each other.

## What is modelled

- `bits.dfy`, `bfield.dfy`: the byte-packed bit field as a class, read as a set of piece numbers.
- `lru.dfy`, `cache.dfy`, `cacheclass.dfy`: the write-through piece cache over the file. `Lru` says, from the trace of
  accesses alone, what a least-recently-used list of a given capacity holds; `CacheModel` is the cache's state as a
  value and what each operation does to it; `CacheObject.Cache` is the object, whose methods are proved against it.
- `cstrings.dfy`: pieces pass through C string copies, so what a buffer means is the text before its first NUL
  (`View`). What uninitialised memory holds is left arbitrary.
- `objstore.dfy`: the object store, joining bit field and cache.
- `earmark.dfy`, `neighbours.dfy`: earmarking as one thread's loop, and the neighbour table.
- `handlerops.dfy`: the message handler's cases and helpers as methods over a socket.
- `protocol.dfy`: the whole system as a state machine. Any number of nodes, one thread per end of each connection, one
  FIFO channel per direction. Every bit of the shared earmark field is tested and set in a step of its own; adding a
  piece is an `exists` step, a `put` step and a `flip` step; all threads of all nodes interleave freely.
- `invariants.dfy`, `steps.dfy`, `theorems.dfy`: what every step keeps, and what therefore holds of every reachable
  state and over every run.
- `progress.dfy`: what becomes of every message of a connection, and from which states a node can settle.
- `witnesses.dfy`: runs that show that what the theorems leave possible does happen.
- `mesh.dfy`: who dials whom, and the sizes a node derives from the configuration.

## Where the code departs from what it is for

The code as written is modelled beside the form it is meant to have, with the exact condition under which it does
what it is for:

- `update_cache` (objstore/cache.cpp:112-137) moves the front element on a hit and never renumbers the index. As
  written it is right just when there is nothing to renumber (`AsWrittenExactIff`), over a whole run just when every
  access is an easy one: just then it agrees with least-recently-used caching (`RunAsWrittenIff`), and just then every
  hit finds its own entry (`HitsAsWrittenIff`). Otherwise it can serve one piece's bytes for another
  (`AsWrittenServesWrongPiece`). The cache class and the protocol use the repaired form, `CacheModel.Update`.
- `Cache::exists` (objstore/cache.cpp:199-207) looks a piece number up among file offsets: `ExistsAsWrittenIff`. The
  protocol's `Haves` uses it as written; `CacheObject.Cache.Exists` is what is meant.
- `Bfield(bool, bool, int)` (objstore/bfield.cpp:50-75) fills whole bytes with 1 and the last byte with eight bits:
  `FilledAsWrittenIff`. `Bfield.Store` follows the comment at lines 44-49. The protocol starts from any set of pieces
  that the file really holds, whichever constructor produced it.
- `earmark` (nbrmap/nbrmap.cpp:152-171) returns the outcome of its last test-and-set only, so a thread that won some
  pieces but not the highest it wanted drops them all: `EarmarkReturnIff` for one pass, `DropsIff` under every
  interleaving. The protocol runs with either return value (`Config.earmark`), and every theorem holds of both. A
  settled node is complete, as written, just when each of its threads earmarked nothing or the highest piece it wanted;
  as meant, always (`CompleteIffHighestWon`). A node with a single connection, or whose peers offer it nothing twice, is
  complete with either (`UncontestedComplete`). `SettledIncomplete` is a run, of two nodes with the whole file and one
  with none, in which a piece is lost.
- `select_unchoked` (nbrmap/nbrmap.cpp:120-150) loses ties in the request count: `ChoiceIsTopKIff`,
  `TieLosesNeighbour`. `NbrTable.SelectUnchoked` is as written, `NbrTable.SelectUnchokedAsMeant` keeps ties and is
  always right. In the program neither choice is ever made: the counter of missing peers starts at the number of listed
  nodes, the node itself included (node/node.cpp:73), and so does not reach 0 (`CounterIsZeroIff`).
- A piece whose bytes contain no NUL is cut on its first hop: `HopKeepsViewIff`, `HopKeepsBytesIff`.
- A handler recognizes an accepted connection by the peer id 0 (handler/handler.cpp:48), so a node dialled at id 0 is
  taken for an accepted one: a mesh is a system the protocol starts from just when nobody dials 0 (`MeshIsInitialIff`);
  a connection made by dialling 0 carries nothing, ever (`BothAcceptingStaySilent`).
- A thread that leaves its loop before it has taken a message dereferences a NULL neighbour (handler/handler.cpp:153):
  the state `Crashed`, exactly then (`SessionOrder`), and it can happen (`HangupCrashes`).
- An accepting thread asks only when asked or on a timeout, and as written no process survives a timeout. From a state
  in which a node's connections are under way it can settle just when none of them is starving (`SettlesIff`); without
  timeouts a node that only accepts a connection from one with the whole file is never served (`NeverServed`).

Of the following only the form that is meant is modelled:

- `rcv_sz` (handler/inhelper.cpp:24) compares `recv`'s result with an error number, so a timeout ends the process
  instead of returning size 0. The model has the timeout step that is meant; runs in which it never happens, or in
  which threads stop for good, are among the runs the theorems speak of. `SettlesIff` is proved with timeouts and
  without.
- Threads may be started before the store's field exists (node/node.cpp:101-119); the model initialises the store first.
- `Cache::get` looks its iterator up under one lock and uses it under none (objstore/cache.cpp:144-153); the model makes
  `get` and `put` atomic.
- The encoding of a Piece (pkts/pkts.cpp:56) closes a brace too early, so it makes no object with a `payload` entry and
  the receiver's lookup of one fails. The model's Piece message carries its payload.

## Model

| member | source | states |
|---|---|---|
| Bits.FlipBit | objstore/bfield.cpp:160-161 | xor with a mask changes that bit and no other |
| Bits.DiffBit | objstore/bfield.cpp:132 | `left ^ (left \| right)` has exactly the bits of `right` that `left` lacks |
| BitfieldModel.Address | handler/handler.cpp:36-41 | the enumeration `8 * i + j` and the addressing by `/ 8` and `% 8` agree on every bit |
| BitfieldModel.SetBit | objstore/bfield.cpp:176-178 | setting a clear bit adds that piece to the set and nothing else |
| BitfieldModel.UnsetBit | nbrmap/nbrmap.cpp:165 | clearing a set bit removes that piece and nothing else |
| BitfieldModel.FlippedPieces | objstore/bfield.cpp:154-180 | the test-and-set is set insertion, and its test is non-membership |
| BitfieldModel.LowBits | objstore/bfield.cpp:57-60 | the mask loop builds the byte whose low bits, and only those, are set |
| BitfieldModel.FilledAsWrittenPieces | objstore/bfield.cpp:50-64 | as written, a full field has the lowest bit of each whole byte and every bit of a partial last one |
| BitfieldModel.FilledAsWrittenIff | objstore/bfield.cpp:50-64 | as written, the filled field stands for the pieces held if and only if the node has no file or there are no pieces |
| BitfieldModel.Bfield.Earmarks | objstore/bfield.cpp:29-31 | the earmark field has one byte per piece and no bit set |
| BitfieldModel.Bfield.Store | objstore/bfield.cpp:44-64 | the store's field stands for all pieces or for none |
| BitfieldModel.Bfield.Diff | objstore/bfield.cpp:125-135 | appends to the output a field that stands for the peer's pieces minus the node's own |
| BitfieldModel.Bfield.Exists | objstore/bfield.cpp:137-151 | is set membership |
| BitfieldModel.Bfield.FlipAt | objstore/bfield.cpp:153-167 | inserts the addressed piece; true if and only if this call did |
| BitfieldModel.Bfield.Flip | objstore/bfield.cpp:169-180 | inserts the piece and changes nothing else |
| BitfieldModel.Bfield.Clone | objstore/bfield.cpp:182-187 | a copy that stands for the same set |
| CStrings.HopKeepsViewIff | handler/outhelper.cpp:74-86 | sending a piece and printing it into the receiver's buffer keeps its text if and only if it contains a NUL |
| CStrings.HopKeepsBytesIff | handler/inhelper.cpp:49-56 | whatever the receiver's memory held, it keeps every byte if and only if the first NUL is the last byte |
| CStrings.PrintedView | objstore/cache.cpp:192-193 | `snprintf` leaves a terminated buffer holding the text cut to fit |
| CStrings.Strncpy | objstore/cache.cpp:173 | the copy into the caller's buffer keeps the text and fills the rest with NULs |
| Lru.HitKeepsRecent | objstore/cache.cpp:115-123 | moving the accessed element to the back keeps the list the most recent positions of the trace, in order |
| Lru.MissKeepsRecent | objstore/cache.cpp:124-136 | so does admitting a new position, the front leaving a full list |
| Lru.RecentUnique | objstore/cache.cpp:112-137 | trace and capacity determine what is held and in which order |
| Lru.HeldIffStackDistance | objstore/cache.cpp:112-137 | a position is held if and only if fewer than the capacity of distinct positions were touched since its last access |
| Lru.LargerHoldsMore | objstore/cache.cpp:112-137 | on one trace a larger capacity holds everything a smaller one does |
| Lru.MissNeedsOthers | objstore/cache.cpp:139-171 | between an access and a later miss at least the capacity of distinct other positions were touched |
| Lru.OneMissPerWindow | objstore/cache.cpp:139-171 | in a window touching at most the capacity of distinct positions, each misses at most once |
| CacheModel.UpdateKeepsRecent | objstore/cache.cpp:112-137 | the repaired update keeps the index the exact inverse of the deque and the deque the most recent positions of the trace |
| CacheModel.AsWrittenExactIff | objstore/cache.cpp:112-137 | the update as written keeps the index exact, and equals the repaired one, if and only if there is one entry or a new one with room to spare |
| CacheModel.UpdateAsWritten | objstore/cache.cpp:112-137 | the update as written never maps an offset outside the deque |
| CacheModel.HitAsWritten | objstore/cache.cpp:115-123 | as written a hit loses the accessed entry and has the front one twice, and renumbers nothing |
| CacheModel.MissAsWritten | objstore/cache.cpp:124-136 | as written a miss admits the new entry, the front leaving a full deque, and renumbers nothing |
| CacheModel.RunAsWrittenIff | objstore/cache.cpp:112-137 | over any run of accesses it agrees with least-recently-used caching throughout if and only if every access of the trace is easy |
| CacheModel.HitsAsWrittenIff | objstore/cache.cpp:112-153 | over any run every hit finds its own entry, at every point, if and only if every access of the trace is easy |
| CacheModel.AsWrittenServesWrongPiece | objstore/cache.cpp:116-123 | three accesses after which one piece's offset is mapped to the other's buffer |
| CacheModel.Run | objstore/cache.cpp:112-137 | after any sequence of accesses the index is exact and holds the most recent positions |
| CacheModel.PosNext | objstore/cache.cpp:106-110 | the first piece starts the file and each next one starts where the one before it ends |
| CacheModel.DisjointRanges | objstore/cache.cpp:106-110 | distinct pieces' offsets are at least a piece apart |
| CacheModel.PiecesTile | node/node.cpp:66-67 | the pieces of a file, as many as the node computes, read at their offsets in order, are the file |
| CacheModel.ByteInOnePiece | objstore/cache.cpp:106-110 | every byte of a file lies in exactly one of its pieces |
| CacheModel.PiecesCover | node/node.cpp:66-67 | the number of pieces is the least that covers the file |
| CacheModel.WrittenBytes | objstore/cache.cpp:182-187 | a write puts its data at the offset, leaves every other byte of the file, and fills a gap past the end with zeros |
| CacheModel.GetServesFile | objstore/cache.cpp:139-174 | hit or miss, get serves the text of the piece's region of the file, and keeps the cache in agreement, if and only if that text can be read back |
| CacheModel.PutElsewhere | objstore/cache.cpp:181-191 | a put leaves the text of every other readable piece as it was, a short last piece included |
| CacheModel.PutKeepsCoherentIff | objstore/cache.cpp:176-197 | a put writes the piece through, and keeps the cache in agreement if and only if an uncached piece is terminated, a cached one had the same text |
| CacheObject.Cache.constructor | objstore/cache.cpp:39-53 | an empty cache over the file, with capacity `CACHESZ / npcs`, usable if and only if that is not 0 |
| CacheObject.Cache.UpdateCache | objstore/cache.cpp:112-137 | the fields end up as the repaired update of the old ones |
| CacheObject.Cache.UpdateCacheAsWritten | objstore/cache.cpp:112-137 | the fields end up as the update as written of the old ones, again in range; an exact index stays exact if and only if there was nothing to renumber |
| CacheObject.Cache.Load | objstore/cache.cpp:155-165 | reading fills a fresh buffer with the region, and leaves the rest of it arbitrary |
| CacheObject.Cache.Get | objstore/cache.cpp:139-174 | returns the text of the piece in the file and extends the trace; the cache stays valid if and only if the region is whole or has a NUL |
| CacheObject.Cache.Put | objstore/cache.cpp:176-197 | the file holds the piece, the trace is extended, and the cache is valid again if and only if it kept no stale and no cut copy |
| CacheObject.Cache.Exists | objstore/cache.cpp:199-207 | whether the piece is cached, looked up by its offset |
| CacheObject.Snprintf | objstore/cache.cpp:193 | the printing loop leaves text, terminator and arbitrary rest |
| CacheObject.ExistsAsWrittenIff | objstore/cache.cpp:199-207 | looking the piece number itself up is right for all caches in agreement with a file if and only if the piece is 0 or pieces have one byte |
| ObjStoreModel.ObjStore.constructor | objstore/objstore.cpp:37-49 | a store over the file whose bits say which pieces it is to hold, valid if and only if its cache has room and the file has those pieces |
| ObjStoreModel.ObjStore.AddPiece | objstore/objstore.cpp:51-62 | 0 and no change if the piece is held; else the piece is in the file and its bit set; no held piece's text changes; valid again if and only if no unterminated piece was added; the store's value is that after an add |
| ObjStoreModel.ObjStore.GetPiece | objstore/objstore.cpp:64-73 | 0 if the piece is not held; else its text in the file; the store's value is that after a fetch |
| ObjStoreModel.CallKeepsPiece | objstore/objstore.cpp:51-73 | every add or get, of any contents, keeps the store's invariant and every held piece's text in the file |
| ObjStoreModel.PiecesAfter | objstore/objstore.cpp:51-73 | after any sequence of adds and gets the store holds what it held and every piece some add named, and nothing else |
| ObjStoreModel.FirstAddWins | objstore/objstore.cpp:51-62 | a piece not held before has in the end the text of the first add that named it |
| ObjStoreModel.PieceStable | objstore/objstore.cpp:51-73 | once a bit is set, after any sequence of adds, gets and evictions, of any contents, a get serves the same text; only a cached copy of a piece without a NUL may lack its last byte |
| Earmarking.NbrMap.Earmark | nbrmap/nbrmap.cpp:152-171 | the wanted pieces become earmarked, `diff` keeps those that were free, and the return value tells whether the last test-and-set was won |
| Earmarking.NbrMap.EarmarkBit | nbrmap/nbrmap.cpp:159-166 | one round of the loop |
| Earmarking.EarmarkReturnIff | nbrmap/nbrmap.cpp:161-170 | the return value says whether anything was won if and only if nothing was free or the highest wanted piece was |
| Earmarking.EarmarkDropsWonPiece | nbrmap/nbrmap.cpp:161-170 | a field and a wish for which a piece is won and false is returned |
| Earmarking.UninterruptedMarking | nbrmap/nbrmap.cpp:157-168 | the protocol's bit-by-bit rounds, run without interruption, do what the loop does |
| Neighbours.NbrTable.RegisterCli | nbrmap/nbrmap.cpp:77-92 | the id is listed, a first entry is kept and a repeated id's neighbour is in no table, and the 32-bit counter wraps |
| Neighbours.NbrTable.SelectUnchoked | nbrmap/nbrmap.cpp:120-150 | for any number of preferred neighbours: nothing while peers are missing, false if everyone is done, else what the loop chooses of the kept neighbours is unchoked, each choked, interested and not done before, and nothing else changes |
| Neighbours.NbrTable.SelectUnchokedAsMeant | nbrmap/nbrmap.cpp:120-150 | with ties kept, exactly as many as can be of the eligible are unchoked, none passed over for one with fewer requests |
| Neighbours.NbrTable.SortedByCount | nbrmap/nbrmap.cpp:129-134 | the map keyed by request count: descending, one neighbour per count, the first |
| Neighbours.NbrTable.UnchokeFirst | nbrmap/nbrmap.cpp:139-147 | unchokes the top of the kept neighbours; with 0 preferred, none or all of them |
| Neighbours.ChoiceIsTopKIff | nbrmap/nbrmap.cpp:120-150 | the choice as written is a correct top-k if and only if every eligible neighbour lost to a tie has enough kept ones with as many requests |
| Neighbours.TieLosesNeighbour | nbrmap/nbrmap.cpp:129-133 | two tied neighbours with room for both, of which one stays choked |
| Neighbours.ChosenIsTopK | nbrmap/nbrmap.cpp:129-147 | the first eligible ones of a list ordered by request count, ties in any order, are a correct top-k |
| Neighbours.UnchokedIs | nbrmap/nbrmap.cpp:141-144 | unchoking clears `choked` of those chosen and changes nothing else |
| Neighbours.CounterIsZeroIff | node/node.cpp:73 | the counter is 0 if and only if as many nodes as are listed have registered; with one registration per other node it never is |
| HandlerOps.DiffToReqs | handler/handler.cpp:34-43 | the keys gain exactly the pieces of `diff` |
| HandlerOps.SendRequests | handler/outhelper.cpp:65-72 | one request per key, each once, in some order |
| HandlerOps.SendHaves | handler/outhelper.cpp:100-115 | the messages are the protocol's `Haves`, in ascending order |
| HandlerOps.HavesAre | handler/outhelper.cpp:104-113 | a piece is announced if and only if it is in the peer's field and its number is a cached offset |
| HandlerOps.HavesAscend | handler/outhelper.cpp:102-107 | each is announced once, in ascending order |
| HandlerOps.HandleHave | handler/inhelper.cpp:62-71 | an announced piece is asked for again if and only if it is outstanding |
| HandlerOps.HandlePiece | handler/inhelper.cpp:49-60 | the store holds the piece, cut to fit if it is new, nothing else changes, and it is no longer outstanding |
| HandlerOps.SendPiece | handler/outhelper.cpp:74-86 | sends the piece's text if and only if the store has it |
| HandlerOps.Handler.Start | handler/handler.cpp:48-59 | who dialled sends its handshake and what the store's field holds now, who accepted nothing: the protocol's first step |
| HandlerOps.Handler.OnHandshake | handler/handler.cpp:88-97 | a fresh neighbour, and an acceptor's own handshake: the protocol's case |
| HandlerOps.Handler.OnChoke | handler/handler.cpp:98-101 | the node is choked: the protocol's case |
| HandlerOps.Handler.OnUnChoke | handler/handler.cpp:102-106 | the node is not choked and asks for everything outstanding: the protocol's case |
| HandlerOps.Handler.OnInterest | handler/handler.cpp:107-114 | the neighbour's interest is what was said: the protocol's cases |
| HandlerOps.Handler.OnHave | handler/handler.cpp:115-118 | an outstanding piece is asked for again: the protocol's case |
| HandlerOps.Handler.OnBitField | handler/handler.cpp:119-134 | the wanted pieces are earmarked, and the free ones become requests if and only if earmark's last test-and-set was won: together the protocol's steps for the message |
| HandlerOps.Handler.OnEarmarked | handler/handler.cpp:124-133 | requests and messages after earmark, on its return value, which are those of the protocol's decision |
| HandlerOps.Handler.OnTimeout | handler/handler.cpp:69-80 | requests again, haves every second time, leaving at the fifth: the protocol's timeout |
| HandlerOps.Handler.OnRequest | handler/handler.cpp:135-142 | the piece's text, then the thread's own requests: the protocol's steps for the message, or its failure |
| HandlerOps.Handler.OnPiece | handler/handler.cpp:143-146 | the message, put and flip steps of the protocol, run one after the other |
| HandlerOps.Handler.ClearChoked | nbrmap/nbrmap.cpp:141-142 | the neighbour is no longer choked: the protocol's unchoke step |
| HandlerOps.Handler.ChokeStatusCheck | handler/handler.cpp:21-32 | sends the neighbour's status if it differs from the one passed, which for a status of false is what the protocol sends |
| HandlerOps.Handler.SendBfield | handler/outhelper.cpp:42-49 | advertises exactly the pieces the store's field holds |
| Invariants.InitInv | node/node.cpp:55-78 | every initial state satisfies the invariant |
| Invariants.StepOkKeepsInv | handler/handler.cpp:45-155 | a local step in order, at any thread of any node, keeps the invariant of the whole system |
| Steps.MarkClaims | nbrmap/nbrmap.cpp:159-166 | a test-and-set, whatever other threads did before it, keeps the thread's earmarks the bits passed that are left in `diff`, and takes only free pieces |
| Steps.MarkOutcome | nbrmap/nbrmap.cpp:159-166 | whatever other threads do, the outcome of the last test-and-set says whether the highest wanted piece so far is the thread's |
| Steps.DecideClaims | handler/handler.cpp:124-133 | after the loop every earmark is outstanding or dropped and no piece of the peer's is overlooked |
| Steps.DecideOutcome | nbrmap/nbrmap.cpp:157-170 | so at the end of the loop it says whether the highest wanted piece is |
| Steps.ReceiveHandshakeOk | handler/handler.cpp:88-97 | the Handshake case is in order |
| Steps.FailsIff | handler/handler.cpp:88-146 | a message case fails if and only if the neighbour it needs is missing, the piece asked for is not held, or a bit field is a second one or too short |
| Steps.ReceiveFieldOk | handler/handler.cpp:119-123 | the BitField case is in order: it is the first on the connection, so `diff` is empty |
| Steps.ReceiveRequestOk | handler/handler.cpp:135-138 | the Request case is in order: the neighbour is registered and the piece is held |
| Steps.ReceivePieceOk | handler/handler.cpp:143-146 | the Piece case is in order: the text printed into the buffer is the right one |
| Steps.ReceiveOtherOk | handler/handler.cpp:98-118 | the remaining message cases are in order |
| Steps.ServeOk | handler/outhelper.cpp:74-86 | serving a held piece sends its right text and keeps the cache in agreement |
| Steps.WriteOk | objstore/objstore.cpp:57 | the put step keeps every good piece good and makes this one good before its bit is set |
| Steps.PublishOk | objstore/objstore.cpp:59 | the flip step sets the bit of a piece that is in the file |
| Steps.TimeoutOk | handler/handler.cpp:69-80 | the timeout step is in order |
| Steps.UnchokeOk | nbrmap/nbrmap.cpp:139-147 | unchoking a thread's neighbour changes nothing, as it is never choked |
| Theorems.StepKeepsInv | handler/handler.cpp:45-155 | every step of every thread of every node keeps the invariant |
| Theorems.ContentIntegrity | handler/handler.cpp:135-146 | in every reachable state every published piece, cached buffer and Piece ever sent has the distributed file's text |
| Theorems.RequestsServiceable | handler/outhelper.cpp:74-80 | in every reachable state a peer holds whatever is outstanding or was ever requested of it, fields advertise only held pieces, and no thread fails |
| Theorems.AdvertisesCurrent | handler/outhelper.cpp:35-49 | whatever step writes a bit field, it advertises just what the node holds then, and a handshake the node's own id |
| Theorems.ChokedIsTold | handler/handler.cpp:21-32 | a choked neighbour would be told so first for every message taken, and nothing else tells it |
| Theorems.TellsInterestIff | handler/handler.cpp:124-133 | a thread declares itself interested if and only if, as written, it won the highest piece it wanted, as meant, any |
| Theorems.SessionOrder | handler/handler.cpp:86-155 | first message Handshake, at most one BitField, no neighbour choked and no choke status sent, a neighbour from the first message on; a thread that has left its loop crashed if and only if it had taken no message |
| Theorems.EarmarkedByExactlyOne | nbrmap/nbrmap.cpp:152-171 | under every interleaving a piece is earmarked if and only if one thread of the node earmarked it, and never two |
| Theorems.EarmarksMidLoop | nbrmap/nbrmap.cpp:157-168 | part-way through the loop a thread's earmarks are the bits it has passed that are left in `diff` |
| Theorems.NothingOverlooked | handler/handler.cpp:119-134 | in every reachable state each piece of a field acted on is held, or some thread earmarked it and, past its loop, has it outstanding or dropped it |
| Theorems.MissingIffDropped | handler/handler.cpp:119-134 | when a node has settled, an advertised piece is missing if and only if a thread earmarked it and dropped it |
| Theorems.CompleteIffHighestWon | handler/handler.cpp:119-134 | a settled node has everything advertised if and only if each of its threads earmarked nothing or the highest piece it wanted; with earmark's return value as meant, always |
| Theorems.UncontestedComplete | nbrmap/nbrmap.cpp:152-171 | a settled node with one connection, or whose peers offered no two of its threads a piece it did not start with, has everything advertised |
| Theorems.WholeFile | handler/handler.cpp:119-146 | then, if it and its peers between them started with every piece, it has the whole file with the right contents |
| Theorems.DropsIff | handler/handler.cpp:124-133 | a thread drops what it earmarked if and only if that was something but not the highest piece it wanted; otherwise all its earmarks become requests |
| Theorems.WantedIsSnapshot | objstore/bfield.cpp:125-135 | what a thread wants is its peer's field less what its node has at the snapshot, and no other step changes it |
| Theorems.Conservation | nbrmap/nbrmap.cpp:152-171 | pieces earmarked and pieces added are the sums over connections, each piece is added once, and no more are earmarked than were initially missing |
| Theorems.ThreadConservation | handler/inhelper.cpp:56-59 | a thread's earmarks split into outstanding, added and dropped |
| Theorems.NothingFromNowhere | handler/inhelper.cpp:49-60 | over every run each piece a node holds was held by some node at the start |
| Theorems.PiecesStay | objstore/objstore.cpp:51-73 | over every run bits are only ever set and a piece once right stays right |
| Theorems.PutNeverHits | objstore/objstore.cpp:53-59 | in every reachable state a thread about to put a piece finds it uncached |
| Theorems.DuplicateIgnored | handler/handler.cpp:143-146 | a Piece already held changes nothing but the place in the stream |
| Theorems.HavesNeverHelp | handler/inhelper.cpp:62-71 | a Have only ever names a piece its reader holds, so it is never answered with a request |
| Theorems.RequestsOnlyShrink | handler/inhelper.cpp:56-59 | after its BitField step no thread's outstanding set grows |
| Progress.EverythingTracked | handler/handler.cpp:119-146 | in every reachable state each request taken is answered or being served, each piece taken is added or being added, pieces are sent only for requests, and who asks has asked for everything |
| Progress.NeighbourNoted | handler/handler.cpp:107-136 | in every reachable state a neighbour is interested if and only if its last word taken on it was Interested, and its request count is the requests taken |
| Progress.Drain | handler/handler.cpp:66-150 | in every continuation of a reachable state a thread in its loop can take everything sent to it, without a timeout and moving no other thread |
| Progress.CanSettleNode | handler/handler.cpp:66-150 | from every reachable state a node can settle if each of its connections is live and its end has nothing left, dialled, has asked or been asked, or has a timeout left |
| Progress.StarvedForever | handler/handler.cpp:69-80 | a starved connection stays so in every continuation, with the same pieces outstanding |
| Progress.SettlesIff | handler/handler.cpp:119-146 | with timeouts or without, a node whose connections are under way can settle if and only if none of them is starving at its end |
| Witnesses.SettledIncomplete | nbrmap/nbrmap.cpp:161-170 | a reachable settled node that lacks a piece it was offered and had earmarked, from nodes that start with everything or nothing and without a timeout |
| Witnesses.NeverServed | handler/handler.cpp:126-130 | a reachable state, from such a start, in which a node has earmarked the whole file and from which no run without timeouts settles it |
| Witnesses.HangupCrashes | handler/handler.cpp:152-153 | in any initial state an accepting thread may hang up, and that step crashes it |
| Mesh.Node.constructor | node/node.cpp:55-78 | the node's connections are those it dials, then one accepted for each node listed after it, whichever dials are answered |
| Mesh.Node.ConnBack | node/node.cpp:89-129 | dials everyone listed before the node's own id that answers, and returns the number listed before it, plus one |
| Mesh.Node.AcceptLoop | node/node.cpp:131-144 | accepts one connection for everyone not yet counted |
| Mesh.DialsAre | node/node.cpp:100-126 | the connections dialled are to the nodes listed before that answer, and no others |
| Mesh.ConnectionCounts | node/node.cpp:89-144 | whichever dials are answered, a node accepts one connection for each node listed after it, none if unlisted, and dials each answering node listed before it as often as it is |
| Mesh.FullMesh | node/node.cpp:89-144 | with distinct ids and every dial answered the later of two nodes dials the earlier exactly once and the earlier never the later, and a node accepts as many connections as nodes dial it |
| Mesh.MeshIsInitialIff | handler/handler.cpp:47-59 | the threads the nodes start, in the roles they take themselves to have, are a system the protocol starts from if and only if no node dials the id 0 |
| Mesh.BothAcceptingStaySilent | handler/handler.cpp:48-59 | over every run a connection both of whose ends take themselves to accept carries nothing, and an end that leaves crashes |
| Mesh.EarmarkFieldCovers | node/node.cpp:69-73 | a store's field takes the fewest bytes with a bit for every piece, and the shared earmark field has as many |

## Left out

- Sockets, name resolution, send and receive errors, and process exit: a channel is a FIFO sequence of messages.
- The BSON encoding of messages: messages are a datatype.
- Logging and configuration parsing.
- Locks: each is modelled as the atomicity of the step it guards.
- A burst of messages written by one loop (`send_requests`, `send_haves`) is one step of the protocol; the loop itself is in `HandlerOps`.
- CacheModel.Pos: does not model 32-bit wrap-around of the file offset, because the sizes of the configuration are below 2^31.
- `opt_unchoke`: a random retry loop that need not end.
- Choking as a gate: nothing ever sets `choked`, so no traffic is ever held back by it, and the branches that would hold some back are never taken; `Theorems.SessionOrder` says so.
- Recovery after a connection ends: earmarks are never released, so completion speaks of nodes with nothing outstanding.
- Fairness: `Progress.SettlesIff` says from where a node can settle, not that the scheduler takes it there.
- `Have` messages as news: they list pieces the receiver already holds, which `Theorems.HavesNeverHelp` proves.
- Freeing of cached buffers: `update_cache` as written also leaks or doubly owns them, which values do not show.
