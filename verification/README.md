# A verified model of the tpt C examples

tpt is a collection of C programs about systems and network programming. Most of it
is plumbing; the parts modelled here are those that keep an invariant over unbounded
runs, and the theorems are about all runs, all interleavings or all inputs.

| file | models |
|---|---|
| `Allocator.dfy`, `MemPool.dfy` | the slab memory pool: free list threaded through packed header words, refining a LIFO allocator |
| `ConnQueue.dfy`, `ConnPool.dfy`, `ConnPoolThreads.dfy` | the linked queue, the bounded connection pool over it, and the pool under any number of threads |
| `DiningPhilosophers.dfy` | the philosophers with a seat semaphore, for every table size |
| `ShmQueue.dfy`, `ProducerConsumer.dfy` | the ring buffer and the semaphore protocol around it |
| `Chunked.dfy` | the chunk encoder with a decoder after section 7.1 of RFC 9112 |
| `CondCounter.dfy` | the counter with its watcher on a condition variable |
| `Tunnel.dfy` | the splice and recv/send tunnel |
| `RequestBuffer.dfy` | the growing receive buffer and the request list |
| `Zigzag.dfy` | zigzag coding |
| `Bits.dfy`, `Sums.dfy`, `Options.dfy`, `SystemTypes.dfy` | bitwise operators with their arithmetic, sums over threads, NULL, bytes and errno |

`dafny verify dfyconfig.toml` checks everything.

## How it is modelled

- **Objects that are updated in place** are classes (`MemPool.Pool`, `ConnQueue.Queue`,
  `ConnPool.Pool`, `ShmQueue.Queue`, `Tunnel.Kernel`, `RequestBuffer.ProxyInfo`). Each
  method is proved against a function on the abstract value, and the theorems are about
  that function.
- **Threads** are a state machine. A step names the thread and every nondeterministic
  choice, so a run is a sequence of steps; `IsRun` says each step was possible and
  `Exec` gives the state reached. No scheduler is assumed. A semaphore is a number, a
  mutex its owner. A signal wakes one sleeper; spurious wakeups are steps of their own,
  so a signal that wakes several threads is covered too.
- **System calls and allocations** are parameters: a flag `granted` for malloc, a
  script of answers for poll, splice, recv and send. The tunnel also keeps the trace of its
  system calls, and its control flow is proved against a protocol on such traces. A script may end anywhere; the run
  then stops with `None`, so what is proved for all scripts holds at every instant.
- **Slab memory** is arrays of 64-bit words and a pointer is a slab index with a word
  index. Sizes and counts in `create` are wrapped to 32 bits as in the program.
  `MemPool.AdjustExact` gives the exact condition (`Respected`) on a request under which
  the wrapped arithmetic yields a usable geometry; `Create` requires that and no more.
- **Connections** are numbered in the order they are opened, which stands for the fresh
  pointer that `conn_mgr_conn_new` returns. A client pushes a connection it holds, or NULL;
  threads may hand connections to each other at any time, so the one that pushes need not
  be the one that popped.

Where the program's text and its comments disagree, the program was followed: the pool's
comment draws slabs up to index 4096 and speaks of 1024 slabs of 256 MB, the code has
4096 slabs with indices 0 to 4095.

### Properties that hold only under a condition

- The dining table is free of deadlock exactly for two or more philosophers; a lone one
  finds no seat (`DiningPhilosophers.DeadlockFreeIff`).
- A list of pieces survives the chunk encoder in one body exactly when no piece is empty:
  an empty piece is sent as the last chunk (`Chunked.RoundTripIff`).
- The watcher is always released exactly when the increments reach the limit
  (`CondCounter.WatcherReleasedIff`), and adds 100 at most once exactly for limits up to
  100; the program's is 12 (`CondCounter.BoostedOnceIff`).
- The shared-memory queue never deadlocks exactly when there is a producer and a consumer
  (`ProducerConsumer.NeverDeadlocksIff`).
- An orderly end of the tunnel means that every byte taken from the server was delivered
  exactly when the client socket accepts no partial splice before its first error
  (`Tunnel.DeliveredIff`); `Tunnel.PartialSpliceLosesBytes` is a run that loses a byte.
- The size of the receive buffer stays a C int in every run exactly for clients that send
  at most 1 GiB less 128 bytes (`RequestBuffer.SizeOverflowsIff`).
- The parse loop comes to its own end exactly when there is memory for all complete
  requests, of which there are at most as many as unparsed bytes
  (`RequestBuffer.ParsingListsRequests`); at a parse error it goes on without progress.
- The pool geometry is usable exactly for a `Respected` request (`MemPool.AdjustExact`);
  `MemPool.WrappedRequest` is a request that is not.

## Model

| member | source | states |
|---|---|---|
| `Allocator.StartsAreMultiples` | src/system/mem_pool/argo_mem_pool.c:86-91 | a word starts an object iff it is one of the obj_cnt multiples of the object size |
| `Allocator.ObjectsAreSeparate` | src/system/mem_pool/argo_mem_pool.c:36-41 | objects neither overlap nor leave the slab, and no real offset is the sentinel |
| `Allocator.FreshSlots` | src/system/mem_pool/argo_mem_pool.c:78-92 | the free list of a new slab holds each of its slots exactly once |
| `Allocator.RefillSpec` | src/system/mem_pool/argo_mem_pool.c:183-189 | the pool grows only when every slot is live, keeps everybody's slot, and stays without a free one iff it is at 4096 slabs or gets no memory |
| `Allocator.GetSpec` | src/system/mem_pool/argo_mem_pool.c:178-199 | get returns a slot nobody holds; it fails iff every slot is live and there are 4096 slabs or no memory, and then changes nothing; a slab is added only when all slots are live |
| `Allocator.PutSpec` | src/system/mem_pool/argo_mem_pool.c:201-211 | put keeps free and live a partition of all slots, and the next get returns the same slot and restores the allocator |
| `Allocator.RunInv` | src/system/mem_pool/argo_mem_pool.c:178-211 | over every run of gets and puts no slot is lost or handed out twice: free and live are disjoint, complete and count slab_cnt * obj_cnt |
| `Allocator.DemandBound` | src/system/mem_pool/argo_mem_pool.c:157-191 | with n >= 2 slabs, some moment of the run had more live objects than n - 1 slabs hold |
| `MemPool.UnpackArithmetic` | src/system/mem_pool/argo_mem_pool.c:169-173 | mask and shift of a header word are remainder and quotient by 2^28 |
| `MemPool.PackExact` | src/system/mem_pool/argo_mem_pool.c:193-196 | packing slab index and offset by shift and OR is addition, fits the word and is undone by mask and shift |
| `MemPool.DecodeLink` | src/system/mem_pool/argo_mem_pool.c:184-186 | the decoded word names a slot iff it encodes it, and never also looks like the end of the list |
| `MemPool.AdjustedSizeExact` | src/system/mem_pool/argo_mem_pool.c:97-99 | the size is rounded to whole words with room for the header iff the rounding does not wrap 32 bits |
| `MemPool.AdjustExact` | src/system/mem_pool/argo_mem_pool.c:94-105 | the adjusted size and count are usable iff the request is respected; then the count is the requested one or the largest that fits a slab |
| `MemPool.WrappedRequest` | src/system/mem_pool/argo_mem_pool.c:100-104 | a request whose 32-bit product is 0: its count is not capped and the geometry is unusable |
| `MemPool.FreeListInit` | src/system/mem_pool/argo_mem_pool.c:78-92 | the loop links all objects of a slab in address order and ends the list with the sentinel |
| `MemPool.HeadDecodes` | src/system/mem_pool/argo_mem_pool.c:184-190 | the head shows the sentinel iff nothing is free, and otherwise decodes to the top free slot inside memory |
| `MemPool.PoppedRepresents` | src/system/mem_pool/argo_mem_pool.c:193-196 | unlinking the first free object in memory is popping the stack |
| `MemPool.PushedRepresents` | src/system/mem_pool/argo_mem_pool.c:206-210 | exchanging header and head in memory is pushing on the stack |
| `MemPool.PushPopRestores` | src/system/mem_pool/argo_mem_pool.c:193-210 | put then get restores every word of memory and the head of the list |
| `MemPool.PayloadWriteRepresents` | src/system/mem_pool/argo_mem_pool.c:34-35 | a write to any word that is not a header changes no link |
| `MemPool.GrownRepresents` | src/system/mem_pool/argo_mem_pool.c:113-118 | a linked slab extends a pool without free slots, and loses nothing when it replaces the head |
| `MemPool.ChainIsFreeStack` | src/system/mem_pool/argo_mem_pool.c:81-91 | the one chain memory holds from mp_free_next is the free stack: finite, without repetition, ended by a sentinel |
| `MemPool.DecodedPop` | src/system/mem_pool/argo_mem_pool.c:184-198 | the address get computes from the head is the top free slot, 8-byte aligned in its slab |
| `MemPool.Pool.constructor` | src/system/mem_pool/argo_mem_pool.c:126-135 | an empty pool with the rounded size and the adjusted count |
| `MemPool.Pool.AppendSlab` | src/system/mem_pool/argo_mem_pool.c:109-119 | a linked slab is appended and the head moves to it; without memory nothing changes |
| `MemPool.Pool.CreateNewSlab` | src/system/mem_pool/argo_mem_pool.c:107-120 | the free list becomes that of the new slab, old slabs keep every word |
| `MemPool.Pool.Expand` | src/system/mem_pool/argo_mem_pool.c:157-167 | fails without effect iff there are 4096 slabs or no memory |
| `MemPool.Pool.Relink` | src/system/mem_pool/argo_mem_pool.c:193-210 | the exchange of a header with the head that get and put share |
| `MemPool.Pool.Detach` | src/system/mem_pool/argo_mem_pool.c:193-198 | memory and head after unlinking the object at the head |
| `MemPool.Pool.Pop` | src/system/mem_pool/argo_mem_pool.c:190-198 | get on a non-empty list is a pop and returns the payload address |
| `MemPool.Pool.Refill` | src/system/mem_pool/argo_mem_pool.c:183-189 | the first half of get refines the allocator's refill; an added slab is new memory and old slabs keep every word |
| `MemPool.Pool.PopFirst` | src/system/mem_pool/argo_mem_pool.c:190-198 | decoding the head and popping it refines the allocator's take, with the exact memory image |
| `MemPool.Pool.Get` | src/system/mem_pool/argo_mem_pool.c:178-199 | get refines the allocator's get, adds at most one slab, of new memory, changes no existing word except that object's header, and on a non-empty list is exactly the unlinking of the head |
| `MemPool.Pool.PutThenGet` | src/system/mem_pool/argo_mem_pool.c:178-211 | put followed by get returns the same address and restores every word, the head and the abstract pool |
| `MemPool.Pool.Swap` | src/system/mem_pool/argo_mem_pool.c:206-210 | memory and head after exchanging the header with the head |
| `MemPool.Pool.Put` | src/system/mem_pool/argo_mem_pool.c:201-211 | put refines the allocator's put and changes no word except that object's header |
| `MemPool.Pool.Store` | src/system/mem_pool/argo_mem_pool.c:34-35 | a client's payload write leaves free list, live set and all other words alone |
| `MemPool.TouchesElsewhere` | src/system/mem_pool/argo_mem_pool.c:34-41 | what a call or a write changes is never a payload word of another object, or another word of the same one |
| `MemPool.ClientIsRun` | src/system/mem_pool/argo_mem_pool.c:178-211 | to the allocator a client's payload writes are invisible |
| `MemPool.Pool.Act` | src/system/mem_pool/argo_mem_pool.c:178-211 | a get, put or payload write on the memory refines the allocator's step and changes one word only |
| `MemPool.Pool.Run` | src/system/mem_pool/argo_mem_pool.c:178-211 | any run of gets, puts and payload writes on the memory refines the allocator's run, and every object not given back holds, word for word, what was last written to it |
| `MemPool.Pool.Destroy` | src/system/mem_pool/argo_mem_pool.c:145-155 | every slab is released exactly once |
| `MemPool.Create` | src/system/mem_pool/argo_mem_pool.c:122-143 | NULL iff an allocation fails, else a pool in new memory whose state is the fresh allocator's |
| `MemPool.CreateAndRun` | src/system/mem_pool/argo_mem_pool.c:78-211 | in every state reachable from create: free and live partition all slots, the slab count obeys the demand bound, and the only chain memory holds from mp_free_next is the free stack |
| `MemPool.Lifecycle` | src/system/mem_pool/argo_mem_pool.c:122-211 | create, get, put, get and destroy compose: the first object is handed out twice and one slab is released |
| `ConnQueue.Queue.constructor` | src/networking/conn_mgr/conn_mgr_queue.c:12-20 | the empty queue |
| `ConnQueue.Queue.PushHead` | src/networking/conn_mgr/conn_mgr_queue.c:26-44 | puts the element first; NULL data or no memory leaves the queue alone |
| `ConnQueue.Queue.PushTail` | src/networking/conn_mgr/conn_mgr_queue.c:50-70 | puts the element last; NULL data or no memory leaves the queue alone |
| `ConnQueue.Queue.PopHead` | src/networking/conn_mgr/conn_mgr_queue.c:77-95 | removes and returns the first element; NULL iff the queue is empty |
| `ConnQueue.Queue.GetLength` | src/networking/conn_mgr/conn_mgr_queue.c:101-110 | the traversal ends and counts the elements, modulo 2^32 |
| `ConnQueue.ServeAll` | src/networking/conn_mgr/conn_mgr_queue.c:26-95 | any mix of push_head, push_tail and pop_head does to the linked nodes what it does to the sequence, with the same results of the pops |
| `ConnQueue.ServeConserves` | src/networking/conn_mgr/conn_mgr_queue.c:26-95 | over any mix the elements popped and those left are the first ones and those added, each as often |
| `ConnQueue.FirstInFirstOut` | src/networking/conn_mgr/conn_mgr_queue.c:50-95 | with push_tail and pop_head alone the elements come out in the order they went in |
| `ConnPool.New` | src/networking/conn_mgr/conn_mgr_pool.c:32-55 | NULL iff the address is NULL or memory is refused, else a new pool with no idle connection and size 0 |
| `ConnPool.Pool.constructor` | src/networking/conn_mgr/conn_mgr_pool.c:44-52 | no idle connection and size 0 |
| `ConnPool.Pool.PopAttempt` | src/networking/conn_mgr/conn_mgr_pool.c:91-101 | one pass of the pop loop: the first idle connection, else a new one below the limit, a failed connect or a wait, with idle list and size after each |
| `ConnPool.Pool.Push` | src/networking/conn_mgr/conn_mgr_pool.c:136-147 | the connection becomes the first idle one; NULL or no memory leaves the list alone |
| `ConnPool.Pool.PushThenPop` | src/networking/conn_mgr/conn_mgr_pool.c:83-147 | the connection pushed last is popped first, and the pool is as before both |
| `ConnPool.PopOnceSpec` | src/networking/conn_mgr/conn_mgr_pool.c:91-101 | exact outcome of a pass and the store it leaves, and last in, first out for idle connections |
| `ConnPool.Pool.Destroy` | src/networking/conn_mgr/conn_mgr_pool.c:60-75 | the loop ends having destroyed every idle connection once, in order |
| `ConnPoolThreads.PassIsPopOnce` | src/networking/conn_mgr/conn_mgr_pool.c:91-101 | a thread's steps through the loop body have the effect and outcome of the object's pass; a failed connect leaves the store unchanged |
| `ConnPoolThreads.PopCallIsPopOnce` | src/networking/conn_mgr/conn_mgr_pool.c:83-105 | an uninterrupted pop, just called or woken, ends outside with the connection of its pass, without one if connecting failed, or asleep, and frees the mutex |
| `ConnPoolThreads.PushCallIsPushHead` | src/networking/conn_mgr/conn_mgr_pool.c:136-147 | an uninterrupted push puts the connection first, wakes one sleeper if there is one, and frees the mutex |
| `ConnPoolThreads.LastPushedFirst` | src/networking/conn_mgr/conn_mgr_pool.c:83-147 | whatever other threads do in between, the first take after an insert gets the connection just pushed |
| `ConnPoolThreads.MutexStep` | src/networking/conn_mgr/conn_mgr_pool.c:90-102 | the threads inside the critical sections are exactly the owner of the mutex |
| `ConnPoolThreads.WakeStep` | src/networking/conn_mgr/conn_mgr_pool.c:91-99 | every step keeps: a sleeper implies a full-grown pool and no more idle connections than threads in transit |
| `ConnPoolThreads.PlacesStep` | src/networking/conn_mgr/conn_mgr_pool.c:83-147 | every step keeps each opened connection in exactly one place |
| `ConnPoolThreads.CountStep` | src/networking/conn_mgr/conn_mgr_pool.c:83-147 | every step keeps size equal to idle plus checked-out plus leaked connections |
| `ConnPoolThreads.RunInv` | src/networking/conn_mgr/conn_mgr_pool.c:83-147 | all of the above after every run, whichever thread pushes a connection |
| `ConnPoolThreads.Conservation` | src/networking/conn_mgr/conn_mgr_pool.c:83-147 | over every run size is conserved and at most max_pool_size, and no connection is idle twice, idle and held, or held by two threads |
| `ConnPoolThreads.NoLostWakeup` | src/networking/conn_mgr/conn_mgr_pool.c:91-143 | while a thread sleeps size is max_pool_size and, with the mutex free, idle connections are at most the threads already woken |
| `ConnPoolThreads.SleepersRightlySleep` | src/networking/conn_mgr/conn_mgr_pool.c:77-105 | if every thread sleeps or is in client code and one sleeps, all max_pool_size connections are checked out or leaked |
| `ConnPoolThreads.PoolNeverDeadlocks` | src/networking/conn_mgr/conn_mgr_pool.c:83-147 | while a call is neither finished nor asleep, some pool step is possible |
| `DiningPhilosophers.InitializeSemaphores` | src/system/diningphilo/dinphilo.c:33-41 | the loop sets every fork to 1 and the seats to one less than the table |
| `DiningPhilosophers.StepInv` | src/system/diningphilo/dinphilo.c:57-76 | every operation keeps the account of forks and seats |
| `DiningPhilosophers.ForkSafety` | src/system/diningphilo/dinphilo.c:33-76 | after every schedule a fork semaphore is 1 minus its holders, and seats plus seated is N - 1 |
| `DiningPhilosophers.NeighboursNeverEatTogether` | src/system/diningphilo/dinphilo.c:66-70 | ring neighbours never eat together |
| `DiningPhilosophers.StuckMeansFinished` | src/system/diningphilo/dinphilo.c:65-71 | when nobody can move, everybody is done: blocking would run round the ring and seat all N |
| `DiningPhilosophers.RunsAreBounded` | src/system/diningphilo/dinphilo.c:62-72 | no schedule has more than seven operations per meal |
| `DiningPhilosophers.MaximalRunFeedsEveryone` | src/system/diningphilo/dinphilo.c:57-76 | every schedule that cannot go on has fed each philosopher exactly once per round, returned all forks and seats, and has exactly 7 * rounds * N steps |
| `DiningPhilosophers.DeadlockFreeIff` | src/system/diningphilo/dinphilo.c:33-76 | no schedule deadlocks iff there are at least two philosophers |
| `ShmQueue.FullAndEmptyTests` | src/system/ipc/sharedmemory/shm_producer.c:123-127 | the index tests hold iff the ring is full, and iff it is empty |
| `ShmQueue.AddRefines` | src/system/ipc/sharedmemory/shm_producer.c:117-135 | adding appends to the sequence, through the wraparound, unless it is at capacity |
| `ShmQueue.DeleteRefines` | src/system/ipc/sharedmemory/shm_consumer.c:85-104 | deleting removes and reports the oldest value; nothing iff the ring is empty |
| `ShmQueue.Queue.constructor` | src/system/ipc/sharedmemory/shm_producer.c:105-115 | the empty ring |
| `ShmQueue.Queue.QueueAdd` | src/system/ipc/sharedmemory/shm_producer.c:117-135 | the shared fields after an add are those of the ring function |
| `ShmQueue.Queue.QueueDelete` | src/system/ipc/sharedmemory/shm_consumer.c:85-104 | the shared fields after a delete are those of the ring function |
| `ShmQueue.Queue.QueuePrint` | src/system/ipc/sharedmemory/shm_producer.c:137-157 | the loop ends having visited exactly the contents, in order |
| `ProducerConsumer.ProducerStep` | src/system/ipc/sharedmemory/shm_producer.c:89-101 | every producer operation keeps the semaphore equations and the FIFO account |
| `ProducerConsumer.ConsumerStep` | src/system/ipc/sharedmemory/shm_consumer.c:68-79 | every consumer operation keeps the semaphore equations and the FIFO account |
| `ProducerConsumer.SemaphoresConserved` | src/system/ipc/sharedmemory/shm_producer.c:83-101 | over every run empty, full and mutex obey their conservation equations, for any ring size and any number of threads |
| `ProducerConsumer.ErrorBranchesUnreachable` | src/system/ipc/sharedmemory/shm_producer.c:123-126 | no run takes the queue-is-full branch, nor the consumer's queue-is-empty branch |
| `ProducerConsumer.DeletedIsPrefixOfAdded` | src/system/ipc/sharedmemory/shm_consumer.c:68-104 | over every run the values added are the values deleted followed by the contents |
| `ProducerConsumer.KnownStep` | src/system/ipc/sharedmemory/shm_producer.c:89-101 | every step keeps count of a value: added or carried as often as it was made |
| `ProducerConsumer.ArrivesAsProduced` | src/system/ipc/sharedmemory/shm_producer.c:89-101 | over every run each value was made as often as it was deleted, is queued or is carried by a producer |
| `ProducerConsumer.NeverDeadlocksIff` | src/system/ipc/sharedmemory/shm_producer.c:89-101 | some operation is possible after every run iff there is a producer and a consumer |
| `ProducerConsumer.FillUp` | src/system/ipc/sharedmemory/shm_producer.c:89-101 | producers without a consumer can run until the ring is full and nobody can move |
| `Chunked.HexReadsBack` | src/networking/icap-client-testing/respMod_preview.c:196 | printed hexadecimal reads back as the number |
| `Chunked.HexIsCanonical` | src/networking/icap-client-testing/respMod_preview.c:196 | the size is printed in lower case and without leading zeros |
| `Chunked.DecodeChunk` | src/networking/icap-client-testing/respMod_preview.c:195-200 | a non-empty chunk decodes to its data, then whatever follows decodes as before |
| `Chunked.OneChunk` | src/networking/icap-client-testing/respMod_preview.c:195-200 | a piece is one chunk: its first line gives the size of the whole piece and the data follows |
| `Chunked.RoundTrip` | src/networking/icap-client-testing/respMod_preview.c:178-202 | chunks of non-empty pieces closed by the last chunk decode to the pieces joined and leave any following bytes unread |
| `Chunked.StopsAtEmptyPiece` | src/networking/icap-client-testing/respMod_preview.c:189-194 | an empty piece ends the body there, with everything after it unread |
| `Chunked.RoundTripIff` | src/networking/icap-client-testing/respMod_preview.c:178-202 | a list of pieces survives in one body iff no piece is empty |
| `Chunked.FormChunkedData` | src/networking/icap-client-testing/respMod_preview.c:178-202 | both error codes; otherwise the encoding of the request followed by a NUL inside the allocation; a refused strdup is success with NULL, and the program writes through NULL iff calloc is refused |
| `CondCounter.StepPending` | src/other/condvar.c:20-28 | the increment that reaches the limit while the watcher sleeps has its signal pending, and nobody gets in between |
| `CondCounter.StepInv` | src/other/condvar.c:13-50 | every step keeps mutual exclusion, the account of the counter and the watcher's state |
| `CondCounter.WatcherSafety` | src/other/condvar.c:13-50 | the watcher sleeps only below the limit or with a signal pending, adds 100 at most once for a limit up to 100 (at most once per hundred of the limit in general), and count is increments plus 100 per boost |
| `CondCounter.RunLength` | src/other/condvar.c:18-47 | every run ends, spurious wakeups included, within four steps an increment and five a possible boost, of which there is one per started hundred of the limit |
| `CondCounter.BoostPerWakeup` | src/other/condvar.c:41-47 | over every run the watcher adds 100 once for each time it is woken |
| `CondCounter.WatcherReleasedIff` | src/other/condvar.c:34-50 | every run that comes to rest has released the watcher iff the increments reach the limit |
| `CondCounter.FinalCount` | src/other/condvar.c:13-50 | at rest with enough increments the watcher is done and the count is the number of increments, or that plus 100 for the program's limit |
| `CondCounter.BoostedOnceIff` | src/other/condvar.c:41-47 | the watcher adds 100 at most once in every run iff the limit is at most 100 |
| `Tunnel.SpliceWithPoll` | src/networking/splice/sp_exp/src/sproxy_splice.c:53-91 | the poll loop acts on the world as `PipeToClient` says |
| `Tunnel.PipeToClientMoves` | src/networking/splice/sp_exp/src/sproxy_splice.c:53-91 | a result n >= 0 moved exactly the first n bytes of the pipe to the client; any other result moved none |
| `Tunnel.MakeSplice` | src/networking/splice/sp_exp/src/sproxy_splice.c:14-51 | -1 without a pipe; else the splice loop acts on the world as `Splicing` says |
| `Tunnel.SplicingConserves` | src/networking/splice/sp_exp/src/sproxy_splice.c:14-51 | at every instant delivered bytes, pipe and bytes not yet taken are the server's bytes in order, and the other direction is untouched |
| `Tunnel.SplicingDrains` | src/networking/splice/sp_exp/src/sproxy_splice.c:14-51 | if every splice to the client moves all that is in the pipe, a result of 0 or 1 leaves the pipe empty |
| `Tunnel.SplicingResult` | src/networking/splice/sp_exp/src/sproxy_splice.c:14-51 | make_splice makes its calls in the order of the protocol; 1 iff the last one would block on the server, 0 iff a splice moved nothing, -1 iff it failed |
| `Tunnel.SendWithPoll` | src/networking/splice/sp_exp/src/sproxy_net.c:130-170 | the send loop acts on the world as `Sending` says |
| `Tunnel.SendingSends` | src/networking/splice/sp_exp/src/sproxy_net.c:130-170 | success means the whole buffer was sent once and in order, anything else a prefix of it |
| `Tunnel.SendingResult` | src/networking/splice/sp_exp/src/sproxy_net.c:130-170 | -1 iff the last poll timed out or failed, or the last send failed, other than by an interrupt; success iff the last send took all it was asked to; partial sends and interrupts go on |
| `Tunnel.RecvAndSend` | src/networking/splice/sp_exp/src/sproxy_core.c:129-167 | the relay loop acts on the world as `Relaying` says |
| `Tunnel.RelayingForwards` | src/networking/splice/sp_exp/src/sproxy_core.c:129-167 | sent is a prefix of received at every instant; 0 or 1 means all of it was sent |
| `Tunnel.RelayingResult` | src/networking/splice/sp_exp/src/sproxy_core.c:129-167 | proxy_recv_and_send makes its calls in the order of the protocol; 1 iff the last recv would block, 0 iff it returned 0, -1 iff the last call failed |
| `Tunnel.PollAndTunnel` | src/networking/splice/sp_exp/src/sproxy_core.c:62-127 | -1 without a pipe; else the tunnel loop acts on the world as `Tunnelling` says |
| `Tunnel.TunnellingConserves` | src/networking/splice/sp_exp/src/sproxy_core.c:62-127 | both directions conserve their bytes over the whole tunnel, and after an orderly end nothing received from the client is unsent |
| `Tunnel.TunnelFollowsProtocol` | src/networking/splice/sp_exp/src/sproxy_core.c:62-167 | whatever the kernel answers, the system calls of the whole tunnel are exactly those of the protocol `Then`, in its order and with the right sizes, and it returns exactly where the protocol does, with that result |
| `Tunnel.ReadableIsServed` | src/networking/splice/sp_exp/src/sproxy_core.c:92-117 | a readable client is received from at once, a readable server spliced from if the client is not readable |
| `Tunnel.TunnellingDrains` | src/networking/splice/sp_exp/src/sproxy_core.c:62-127 | without a partial splice to the client before its first error, an orderly end leaves the pipe empty |
| `Tunnel.DeliveredIff` | src/networking/splice/sp_exp/src/sproxy_core.c:62-127 | for given answers of the client socket, every orderly end leaves the pipe empty iff none before the first error is partial |
| `Tunnel.PartialSpliceLosesBytes` | src/networking/splice/sp_exp/src/sproxy_core.c:62-127 | a run that ends with 0 and one of two bytes undelivered |
| `RequestBuffer.NextSizeFits` | src/networking/himproxy/proxy_old/proxy_request_handler.c:163-191 | the size asked for leaves at least 128 bytes of room and is a doubling of the first one, at most twice what is needed |
| `RequestBuffer.FillingFits` | src/networking/himproxy/proxy_old/proxy_request_handler.c:116-191 | whatever the answers, the recorded size stays at most twice what is needed |
| `RequestBuffer.FillingResult` | src/networking/himproxy/proxy_old/proxy_request_handler.c:116-161 | the result is the verdict of the first round that has one, no round before it had, every answer until then is used, and exactly the bytes received are counted |
| `RequestBuffer.FillingVerdict` | src/networking/himproxy/proxy_old/proxy_request_handler.c:133-158 | 1 iff the last recv would block, 0 iff it returned no error, negative iff memory was refused or recv failed otherwise |
| `RequestBuffer.NextSizeOverflowsIff` | src/networking/himproxy/proxy_old/proxy_request_handler.c:163-191 | from a fitting buffer the next size overflows a C int iff more than 1 GiB less 128 bytes have been received |
| `RequestBuffer.SizeOverflowsIff` | src/networking/himproxy/proxy_old/proxy_request_handler.c:116-191 | from the empty buffer no run overflows the C int size iff the client sends at most 1 GiB less 128 bytes |
| `RequestBuffer.OverflowRun` | src/networking/himproxy/proxy_old/proxy_request_handler.c:116-191 | a client that sends more can fill each doubled buffer in turn until the size overflows |
| `RequestBuffer.ProxyInfo.AllocClientBuf` | src/networking/himproxy/proxy_old/proxy_request_handler.c:163-191 | on success a new block with at least 128 bytes of room; no received byte is lost either way, and the recorded size changes even when the realloc is refused |
| `RequestBuffer.ProxyInfo.Recv` | src/networking/himproxy/proxy_old/proxy_request_handler.c:134-137 | callable only with the whole free end of the buffer, at least 128 bytes; the buffer stays the bytes received |
| `RequestBuffer.ProxyInfo.AllocAndRecv` | src/networking/himproxy/proxy_old/proxy_request_handler.c:127-156 | one round of the loop is `Round`, and every recv meets the room it requires |
| `RequestBuffer.ProxyInfo.RecvClientData` | src/networking/himproxy/proxy_old/proxy_request_handler.c:116-161 | the loop acts as `Filling` says, and the buffer is the concatenation of all received bytes |
| `RequestBuffer.ProxyInfo.HandleRequest` | src/networking/himproxy/proxy_old/proxy_request_handler.c:227-330 | the request goes to the end of the linked list and the parsed part grows by its header; without memory nothing changes |
| `RequestBuffer.ProxyInfo.ParseOnce` | src/networking/himproxy/proxy_old/proxy_request_handler.c:201-220 | one round on the linked list and the buffer is `ParseRound` on the bytes received |
| `RequestBuffer.ProxyInfo.ParseRequestBuffer` | src/networking/himproxy/proxy_old/proxy_request_handler.c:192-225 | the loop acts as `Parsing` says on the bytes received, the linked list tiles the parsed part, and it comes to its own end iff there is memory for all complete requests, always so with one allocation per unparsed byte |
| `RequestBuffer.ParsingListsRequests` | src/networking/himproxy/proxy_old/proxy_request_handler.c:192-262 | exactly the complete requests are listed, in order, as far as there is memory, and the loop stops by itself iff there is memory for all; the unparsed length is the measure |
| `RequestBuffer.ParsingStops` | src/networking/himproxy/proxy_old/proxy_request_handler.c:192-225 | as many successful allocations as unparsed bytes are always enough |
| `RequestBuffer.ParsingTiles` | src/networking/himproxy/proxy_old/proxy_request_handler.c:192-262 | requests only get added, end to end from the first byte to the end of the parsed part |
| `RequestBuffer.ParsingIsExact` | src/networking/himproxy/proxy_old/proxy_request_handler.c:192-225 | each new request is a complete header at its offset, and parsing stops exactly at an incomplete request, at an error, on which the program loops, or without memory |
| `RequestBuffer.TileCovers` | src/networking/himproxy/proxy_old/proxy_request_handler.c:255-259 | each parsed byte belongs to exactly one request of the list |
| `Bits.AndIsBitwise` | src/system/mem_pool/argo_mem_pool.c:171 | the masking operator acts on each bit by itself |
| `Bits.OrIsBitwise` | src/system/mem_pool/argo_mem_pool.c:88 | so does the inclusive or |
| `Bits.XorIsBitwise` | src/encoding/zigzag/zigzag.c:6 | so does the exclusive or |
| `Zigzag.EncodeArithmetic` | src/encoding/zigzag/zigzag.c:4-7 | the bit form computes 2n, or -2n-1 for negative n |
| `Zigzag.DecodeArithmetic` | src/encoding/zigzag/zigzag.c:9-12 | the bit form halves even codes and maps odd ones to -(u/2)-1 |
| `Zigzag.DecodeEncode` | src/encoding/zigzag/zigzag.c:4-12 | decoding undoes encoding for every 64-bit integer |
| `Zigzag.EncodeDecode` | src/encoding/zigzag/zigzag.c:4-12 | encoding undoes decoding for every 64-bit code |
| `Zigzag.CodesFollowMagnitude` | src/encoding/zigzag/zigzag.c:4-7 | smaller magnitudes get smaller codes |

## Left out

- `conn_mgr_pool_try_pop` and `conn_mgr_queue_print`: the first loops on an empty queue and drops the connection it opens, so it is no step of the pool; the second only calls back.
- `pthread_mutex_destroy` and a destroy that races with other calls: `ConnPool.Pool.Destroy` is the sequential loop.
- Tunnel liveness: bytes left in the pipe by a partial splice wait for the next data from the server, however long that takes.
- `tcp_send_data` and `tcp_receive_data_with_poll`: the send loop without poll and a single receive would only add easier members of the same kind.
- RequestBuffer.ProxyInfo.ParseRequestBuffer: the http_utils library is not part of this model; its parser is any function whose complete headers are non-empty and within the data.
- Chunk extensions and trailer fields: the decoder rejects them, since the encoder never writes them.
- A second producer started later, whose queue_init would reset the ring, and semaphores left over from an earlier run.
- Interrupted semaphore waits, and threads or processes that die in a critical section.
- MongoDB, bson, Redis, DNS, ICAP drivers, epoll and libevent servers, signal handling, child supervision, mmap, AIO, namespaces and small samples: input/output plumbing or single expressions.
