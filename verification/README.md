# Verified models of a distributed factoriser and of the actor framework under it

The repository holds a distributed Pollard-rho factoriser (`vslab`) and the C++ Actor Framework
it runs on. This project models the parts of both that are hard to get right and proves
properties of them for every input, every run or every interleaving. `dafny verify
dfyconfig.toml` checks all of it.

| file | models |
|---|---|
| `Common.dfy` | types and constants that several models share |
| `NumberTheory.dfy`, `RhoBurst.dfy`, `RhoOverflow.dfy` | one burst of a worker: Floyd's cycle search with gcd, 512-bit arithmetic and where its overflow matters |
| `Factoriser.dfy`, `FactorNetwork.dfy` | the handlers of worker and client, one worker's mailbox, whole runs of client, managers and workers |
| `WildcardMatch.dfy` | matching message types against patterns with wildcards, by backtracking |
| `MatchCache.dfy` | match expressions and their ring-buffer cache |
| `DiningPhilosophers.dfy`, `DiningProgress.dfy` | the dining philosophers as actors, any ring size from 2; that everyone can always get to eat |
| `SharedSpinlock.dfy`, `GroupRegistry.dfy` | the reader/writer spinlock at single atomic operations, and get-or-create of groups over it |
| `GroupMembership.dfy`, `GroupTraffic.dfy` | JOIN/LEAVE membership of group proxies, and the fan-out of group messages while membership changes |
| `Bits.dfy`, `Ripemd160.dfy` | bitwise operators; padding and block building of RIPEMD-160 |
| `Attachables.dfy`, `ActorLinks.dfy`, `LinkProgress.dfy` | attach, detach, cleanup and links of actors |
| `TimerLoop.dfy` | the timer actor's deadline queue |
| `BinaryCodec.dfy`, `TreeCodec.dfy` | binary serializer and deserializer, and the hand-written codec of a tree |

How it is put together:

- Code that updates objects or arrays is a class or a method here. Each such method is proved
  against a function on values, and what the code promises is proved about that function.
- A protocol is a function from a state and an event to the next state. A run is any sequence of
  events; an event that is not possible changes nothing, so theorems about all sequences are
  theorems about all schedules.
- Beside what every run keeps stands what an operation achieves: run without interference it
  comes to its end with its effect, or some continuation of every run reaches the good state.
- Randomness, the clock, the prime test, the compression function and the type tests of match
  cases are parameters: theorems hold whatever they return.

Where code and documentation, or code and expectation, differ, the model follows the code:

- `abstract_actor::detach` is documented to detach the first match; it removes all of them.
- Numbers from 2^256 on overflow the 512-bit type when squared; `ArithmeticExactIff` is exact
  about it, `OverflowMissesDivisor` shows what it can cost.
- The limit of a burst is `pow(n, 1/4)` with an integer exponent, so it is 1 for every n.
- `dynamic_match` refuses some fitting messages when a pattern ends in two wildcards;
  `AcceptIff` says exactly when, `AdjacentWildcardsMiss` is a concrete case.
- A message with fewer values than a searched pattern has types leaves the `switch` with an empty
  message, whose iterators go through a null pointer (`tuple_cast.hpp:132`). Patterns that are
  not searched accept a short message that equals a front of their types, an empty one from a
  builder included, and one without wildcards compares a long message past the end of its array
  of types. `TupleCast` is exact about all three, `ShortMessagesGoWrong` gives concrete cases.
- A group proxy sends JOIN and LEAVE after letting go of its lock, so a LEAVE can be overtaken by
  a later JOIN and cut off a node that has subscribers; `SettlesIff` says exactly when,
  `LeaveOvertaken` is a concrete case. `AtMostOnce` holds all the same.
- Linking holds the own mutex while it takes the other actor's, so two actors that link each
  other at the same time block each other forever; `StuckIff` says exactly when operations are stuck.
- A nested wildcard overwrites the shared commit size, and a later rollback then keeps stale
  entries. The result is right all the same, because the match can no longer succeed; this is
  the last postcondition of `DynamicMatch`.
- A message of 2^32 bytes or more is hashed as its first (size mod 2^32) bytes. A string or a
  child list of 2^32 or more entries does not come back from its bytes; `StringRoundTripIff` and
  `RoundTripIff` are exact about it.
- The client keeps its old number when `tmp_n / p` is 1, and prints each factor once more than it
  divides it out.
- `detach_impl` never ends when a dry run that is not to stop meets a hit: it calls itself with
  the same arguments. No caller asks for that.

## Model

| member | source | states |
|---|---|---|
| RhoBurst.Burst | vslab/src/main.cpp:119-156 | the burst loop, for any draw, prime test and cycle count, ends in the outcome that the first decisive round of the specification gives, where round i works on the i-th and 2i-th iterate of the start |
| RhoBurst.OutcomeMeaning | vslab/src/main.cpp:138-156 | a factor sent divides n, lies in 2..n and is n only if the prime test said so; a restart means the gcd was n; no-factor needs cycles above the limit; an exhausted loop means 1000 gcds of 1; all earlier rounds had gcd 1 |
| RhoBurst.BurstFindsSmallDivisor | vslab/src/main.cpp:119-156 | if n has a divisor 1 < q <= 1000 and n is below 2^256 or even, a burst begun with cycles 0 stops within q rounds with a factor or a restart, for every a, every start and every prime test |
| RhoOverflow.OverflowMissesDivisor | vslab/src/main.cpp:127-138 | for an odd n from 2^256 on it can fail: n = 2^257 + 7 has the divisor 3, and from x = n with a = 2 the first 3 rounds all have gcd 1, because squares overflow 512 bits |
| RhoBurst.PrimeTestAskedOnce | vslab/src/main.cpp:138-147 | a burst depends on the prime test through one answer, about n itself, so a run in which each message brings its own answer covers a randomised test |
| RhoBurst.RoundWithDivisor | vslab/src/main.cpp:127-138 | for every divisor q of n some round up to q has a gcd that q divides |
| RhoBurst.FloydMeets | vslab/src/main.cpp:128-130 | tortoise and hare agree modulo q after at most q rounds, by the pigeonhole principle |
| RhoBurst.IteratesAreExact | vslab/src/main.cpp:119-130 | for n < 2^256 the values of a burst are the exact iterates of x * x + a modulo n, and no product or sum leaves 512 bits |
| RhoBurst.ArithmeticExactIff | vslab/src/main.cpp:102-130 | all draws are free of overflow if and only if n < 2^256 |
| NumberTheory.EuclidGcd | vslab/src/main.cpp:138 | the loop computes the gcd |
| NumberTheory.GcdDividesBoth | vslab/src/main.cpp:138 | the gcd is positive and divides both numbers |
| NumberTheory.GcdGreatest | vslab/src/main.cpp:138 | every common divisor divides the gcd |
| Factoriser.Worker.Continue | vslab/src/main.cpp:110-157 | an obsolete continuation sends nothing; a current one sends what the outcome of the burst calls for |
| Factoriser.ContinueHits | vslab/src/main.cpp:138-149 | if round k is the first with a gcd p other than 1, a current continuation sends one message: factor p with cycles + k - 1, or the continuation with the same n, a and state and cycles + k - 1 if p is n and n is not found prime |
| Factoriser.ContinueGivesUp | vslab/src/main.cpp:149-154 | over the limit with a first gcd of 1 it sends no-factor and, to itself, the number again |
| Factoriser.ContinueRunsOn | vslab/src/main.cpp:156 | within the limit and with every gcd 1 it sends the continuation with the same n, a and state and cycles + 1000 |
| Factoriser.SomeFirstHit | vslab/src/main.cpp:127-156 | these three cases are all there are |
| Factoriser.CalculateMeaning | vslab/src/main.cpp:99-109 | a calculation begins under the next id with 0 cycles, and some draw gives each constant in 1..n |
| Factoriser.Client.Factor | vslab/src/main.cpp:344-373 | the client divides all of p out and asks again with the rest, the cycles and times added up, or stops with nothing changed; the numbers printed are all p and their product is p times what was divided out; a no-factor message adds up the time alone (`Client.NoFactor`) |
| Factoriser.DivideOutMeaning | vslab/src/main.cpp:353-356 | dividing out loses nothing (n is the rest times what was removed), leaves no factor p, and at least halves a number that changes |
| Factoriser.DivideOutUnique | vslab/src/main.cpp:353-356 | if n is m times a power of p and p does not divide m, what is left is m and what goes is that power |
| Factoriser.ClientGoesOnIff | vslab/src/main.cpp:358-366 | the client goes on with m if and only if not p < m < 2p; otherwise it keeps n |
| WorkerMailbox.AtMostOneCurrentContinuation | vslab/src/main.cpp:99-157 | in every run of a worker, whatever the prime test answers each time: a calculate starts the next id, the mailbox holds at most one continuation with the current id, none with a later one, and that one carries the n of the last calculate processed |
| WorkerMailbox.NeverIdle | vslab/src/main.cpp:99-157 | in every run a worker that was asked for a number has work in its mailbox, a calculate or a current continuation, or has sent a factor for the number it began with last |
| FactorNetwork.NumbersDivideStart | vslab/src/main.cpp:99-157 | in every run, with messages delayed, reordered or repeated and the prime test answering as it likes each time: every number in a calculate or continue message divides the start, every factor under way is at least 2 and divides it, and start = client's n times all it divided out |
| FactorNetwork.ClientKeepsInv | vslab/src/main.cpp:344-373 | a client step keeps that invariant |
| FactorNetwork.ContinueSendsOk | vslab/src/main.cpp:110-157 | whatever a worker sends after a good continuation satisfies it |
| FactorNetwork.NextKeepsInv | vslab/src/main.cpp:277-294 | so does every step of a manager, worker or client, the manager's forwarding of its own messages included |
| FactorNetwork.ChangesBounded | vslab/src/main.cpp:344-366 | in every run 2 to the number of changes of n, times n, is at most the start: n changes at most log2(start) times |
| FactorNetwork.ManagerForwards | vslab/src/main.cpp:277-294 | a manager passes numbers on to the workers, factors and failures on to the client, with the same numbers |
| FactorNetwork.ClientHasAsked | vslab/src/main.cpp:364-365 | in every run the client has asked for its current number |
| FactorNetwork.WorkerGivesUp | vslab/src/main.cpp:149-154 | a worker that gives up tells the managers and gives itself the number again |
| FactorNetwork.FactorCanArrive | vslab/src/main.cpp:99-367 | from every state of every run with a worker, if the client's number has a divisor up to 1000 and is below 2^256 or even, then for every constant and start drawn five more deliveries bring the client a factor p of it, and its number becomes what OnFactor makes of it |
| WildcardMatch.Matcher.DynamicMatch | actor-framework/libcaf_core/cppa/tuple_cast.hpp:37-74 | the answer is that of the plain search, a success appends exactly its mapping, and a failure either can be rolled back or rules out every later start, although all wildcards share one commit slot |
| WildcardMatch.Matcher.MatchRest | actor-framework/libcaf_core/cppa/tuple_cast.hpp:52-63 | the loop after a wildcard finds a match if one starts at a remaining value, with the mapping of the first |
| WildcardMatch.Matcher.Rollback | actor-framework/libcaf_core/cppa/tuple_cast.hpp:114-122 | the mapping is cut to the committed size |
| WildcardMatch.AcceptIff | actor-framework/libcaf_core/cppa/tuple_cast.hpp:37-74 | a match is found if and only if the types fit the pattern, and still fit without the last value in case the pattern ends in two wildcards |
| WildcardMatch.AcceptedFits | actor-framework/libcaf_core/cppa/tuple_cast.hpp:37-74 | whatever is accepted fits the pattern with the mapping returned |
| WildcardMatch.FitMeaning | actor-framework/libcaf_core/cppa/tuple_cast.hpp:66-71 | the mapping of a fit has one position per non-wildcard entry, of its type, strictly increasing |
| WildcardMatch.AdjacentWildcardsMiss | actor-framework/libcaf_core/cppa/tuple_cast.hpp:47-63 | one value fits its type followed by two wildcards, and the match refuses it |
| WildcardMatch.TupleCast | actor-framework/libcaf_core/cppa/tuple_cast.hpp:93-140 | for every pattern with at least one type, in all five wildcard positions, exactly when the cast matches, when it does not and when it is undefined: a searched pattern is undefined for a message with fewer values than types and else matches as AcceptIff says; the others match what fits and short messages equal to a front of the types, the empty message with data included, and are undefined for a message without data and, without a wildcard, for one that goes on behind all types; the mapping of a match is that of a fit, or all positions of a short message |
| WildcardMatch.ShortMessagesGoWrong | actor-framework/libcaf_core/cppa/tuple_cast.hpp:111-139 | one value of type 7 is undefined for 7, wildcard, 7; it is accepted for the pattern 7, 8, which it does not fit, and so is an empty message from a builder; a default-constructed one is undefined |
| WildcardMatch.EqualTypes | actor-framework/libcaf_core/cppa/tuple_cast.hpp:136-139 | comparing element by element succeeds exactly if the values are a front of the types, and reads behind the types exactly if these are a proper front of the values |
| WildcardMatch.PlainPatternAccepts | actor-framework/libcaf_core/cppa/tuple_cast.hpp:95-106 | for patterns without a wildcard or with one at an end the search would accept exactly the messages whose compared stretch equals the types, with the same mapping: comparing refines searching |
| DiningPhilosophers.RunKeepsInv | actor-framework/examples/message_passing/dining_philosophers.cpp:168-184 | the invariant holds in every run of every ring of at least 2 |
| DiningPhilosophers.DeliverKeepsInv | actor-framework/examples/message_passing/dining_philosophers.cpp:22-157 | delivering any message under way, in any behaviour of the chopstick or the philosopher it goes to, keeps it |
| DiningPhilosophers.ChopstickInOnePlace | actor-framework/examples/message_passing/dining_philosophers.cpp:22-41 | in every run each chopstick is free with no grip on it, or taken by one philosopher with exactly one of: taken under way, held, put under way |
| DiningPhilosophers.NeighboursNeverEatTogether | actor-framework/examples/message_passing/dining_philosophers.cpp:140-157 | in every run neighbours are never both eating |
| DiningPhilosophers.NeverStuck | actor-framework/examples/message_passing/dining_philosophers.cpp:81-157 | in every run every message under way is accepted by its receiver's current behaviour, and every philosopher has one under way |
| DiningPhilosophers.NoLeftoverAnswers | actor-framework/examples/message_passing/dining_philosophers.cpp:81-136 | in every run a philosopher has at most one open request with each chopstick, and none while starting, thinking or eating, so no answer is left over from an earlier round |
| DiningProgress.TakeAnswered | actor-framework/examples/message_passing/dining_philosophers.cpp:22-41 | in every run a take is answered with taken if nobody has a grip on the chopstick, and with busy otherwise |
| DiningProgress.EatsWhenFree | actor-framework/examples/message_passing/dining_philosophers.cpp:81-157 | a thinking philosopher whose chopsticks nobody has a grip on eats after his eat, his two takes and their answers |
| DiningProgress.EveryoneCanEat | actor-framework/examples/message_passing/dining_philosophers.cpp:22-184 | from every state of every run of every ring, every philosopher can still get to eat |
| SharedSpinlock.FlagCountsHolders | actor-framework/libcaf_core/src/shared_spinlock.cpp:41-101 | in every interleaving of loads, weak exchanges, stores and fetch_sub the flag counts the shared holders, or is the minimum long with exactly one exclusive holder and no shared one |
| SharedSpinlock.WriterIsAlone | actor-framework/libcaf_core/src/shared_spinlock.cpp:41-52 | an exclusive holder excludes every other holder |
| SharedSpinlock.NoOverflow | actor-framework/libcaf_core/src/shared_spinlock.cpp:81-101 | with fewer threads than the maximum long neither the flag nor v + 1 overflows |
| SharedSpinlock.LockAlone | actor-framework/libcaf_core/src/shared_spinlock.cpp:41-92 | undisturbed, lock gets a lock that nobody holds and lock_shared one that nobody holds exclusively, however often the exchange fails for no reason |
| SharedSpinlock.TryIff | actor-framework/libcaf_core/src/shared_spinlock.cpp:76-101 | an undisturbed try form succeeds if and only if the lock is free for it; a failure leaves no trace |
| SharedSpinlock.UnlockRestores | actor-framework/libcaf_core/src/shared_spinlock.cpp:72-96 | unlocking restores the lock as it was before |
| SharedSpinlock.ChangeOfHold | actor-framework/libcaf_core/src/shared_spinlock.cpp:62-70 | the only shared holder gets its exclusive hold, and an exclusive holder its shared one |
| GroupRegistry.OneGroupPerName | actor-framework/libcaf_core/src/group_manager.cpp:270-284 | in every interleaving two calls that return give the same group if and only if they were called with the same identifier, the identifiers taken from the calls |
| GroupRegistry.StageIsAboutCall | actor-framework/libcaf_core/src/group_manager.cpp:270-284 | whatever a thread does inside get is about the identifier of its last call |
| GroupRegistry.GetCompletes | actor-framework/libcaf_core/src/group_manager.cpp:270-284 | from every state of every run, an undisturbed call that no holder keeps out returns the stored group of its identifier, or a new one that is stored then, and leaves all else as it was |
| GroupRegistry.StoredForever | actor-framework/libcaf_core/src/group_manager.cpp:276-282 | a stored group is never replaced at any later point of a run |
| GroupRegistry.InsertIsAlone | actor-framework/libcaf_core/caf/locks.hpp:64-79 | a thread that writes the table after the upgrade is alone: nobody else holds the lock in any mode |
| GroupRegistry.RunKeepsInv | actor-framework/libcaf_core/src/group_manager.cpp:270-308 | each stage of get has the hold on the lock it needs, and every result is the stored group, in every interleaving of lock steps and table accesses |
| GroupMembership.LocalGroup.AddSubscriber | actor-framework/libcaf_core/src/group_manager.cpp:72-79 | the new set of subscribers, whether it grew, and its size; the invalid address is ignored |
| GroupMembership.LocalGroup.EraseSubscriber | actor-framework/libcaf_core/src/group_manager.cpp:81-86 | the new set of subscribers, whether it shrank, and its size |
| GroupMembership.LocalGroup.Subscribe | actor-framework/libcaf_core/src/group_manager.cpp:207-219 | JOIN is sent exactly when the node had no subscriber and now has one |
| GroupMembership.LocalGroup.Unsubscribe | actor-framework/libcaf_core/src/group_manager.cpp:221-229 | LEAVE is sent exactly when the last subscriber went |
| GroupMembership.LocalGroup.SendAllSubscribers | actor-framework/libcaf_core/src/group_manager.cpp:53-62 | every subscriber is sent the message once, nobody else |
| GroupMembership.MembershipSettles | actor-framework/libcaf_core/src/group_manager.cpp:207-229 | in every run in which each proxy sends its JOIN and LEAVE messages in the order it decided on them, handling all that is unsent or under way would leave exactly the proxies whose node has a subscriber |
| GroupMembership.SettlesIff | actor-framework/libcaf_core/src/group_manager.cpp:207-229 | in every run, whatever threads come between deciding under the lock and sending after it: what the broker will make of the messages sent is right for a proxy if and only if the last one it sent is of the kind it decided on last |
| GroupMembership.QuietMeansExactIff | actor-framework/libcaf_core/src/group_manager.cpp:125-138 | with no such message at the broker it forwards to exactly the nodes with subscribers if and only if this holds of every proxy |
| GroupMembership.LeaveOvertaken | actor-framework/libcaf_core/src/group_manager.cpp:221-229 | it can fail: a LEAVE sent after the JOIN of a later subscriber leaves a node with a subscriber, nothing under way, and a broker that does not forward to it |
| GroupMembership.QuietMeansExact | actor-framework/libcaf_core/src/group_manager.cpp:207-229 | when sent in order, with nothing unsent or under way the broker forwards to exactly the nodes with subscribers |
| GroupMembership.SubsMeaning | actor-framework/libcaf_core/src/group_manager.cpp:207-229 | the subscribers on a node are those whose last word was to subscribe |
| GroupMembership.MembershipCanSettle | actor-framework/libcaf_core/src/group_manager.cpp:125-138 | from every state of every run that sends in order, sending and handling what is there leads to exact membership with nothing under way |
| GroupTraffic.AtMostOnce | actor-framework/libcaf_core/src/group_manager.cpp:53-70 | in every run of posts, forwards, subscribes, unsubscribes, JOIN and LEAVE messages in any order: delivered plus under way, nobody has more than one copy of a message at a place, and none of one that no happening of the run posts |
| GroupTraffic.OnlySubscribers | actor-framework/libcaf_core/src/group_manager.cpp:53-62 | whoever is sent a message had, by the subscribes and unsubscribes of the run, subscribed at that place at a step by which it was posted |
| GroupTraffic.SubscribedMeaning | actor-framework/libcaf_core/src/group_manager.cpp:72-86 | in every run the subscribers of a place are those whose last word there was to subscribe |
| GroupTraffic.PostedMeaning | actor-framework/libcaf_core/src/group_manager.cpp:64-70 | the messages counted as posted are those of the posts in the run |
| GroupTraffic.ExactlyOnce | actor-framework/libcaf_core/src/group_manager.cpp:139-181 | an actor subscribed before a message is posted, its node known to the broker and nothing of its proxy under way, that stays subscribed has one copy of each message posted from then on, delivered or under way, at every later point, whatever all other actors and nodes do |
| GroupTraffic.DeliveredExactlyOnce | actor-framework/libcaf_core/src/group_manager.cpp:231-256 | from every state of every run, a message posted at home or at a proxy for such an actor can be carried to its end, and has then been sent to it exactly once |
| Ripemd160.Hash | actor-framework/libcaf_core/src/ripemd_160.cpp:383-409 | the bytes stored are the digest: little-endian bytes of folding the compression function over message, 0x80, zeros and 64-bit bit length (sections 3.1 and 3.2 of RFC 1320), for every message below 2^32 bytes; a longer one is cut to its size modulo 2^32 |
| Ripemd160.Finish | actor-framework/libcaf_core/src/ripemd_160.cpp:357-376 | the tail is padded into one block or two and compressed |
| Ripemd160.TailCompletesFold | actor-framework/libcaf_core/src/ripemd_160.cpp:357-376 | those blocks are the last one or two of the padded message, in both cases |
| Ripemd160.LoadTail | actor-framework/libcaf_core/src/ripemd_160.cpp:358-366 | xoring bytes into words builds the little-endian words of the tail and the bit 1 |
| Ripemd160.XorSetsByte | actor-framework/libcaf_core/src/ripemd_160.cpp:361-364 | xoring a shifted byte into a word whose later bytes are 0 sets that byte and no other |
| Ripemd160.LengthWords | actor-framework/libcaf_core/src/ripemd_160.cpp:372-374 | the two length words are the eight length bytes |
| Ripemd160.WholeBlocks | actor-framework/libcaf_core/src/ripemd_160.cpp:392-398 | the main loop folds the compression function over all whole blocks |
| Ripemd160.LoadBlock | actor-framework/libcaf_core/src/ripemd_160.cpp:393-396 | sixteen little-endian words of a block |
| Ripemd160.BytesToWordIsSum | actor-framework/libcaf_core/src/ripemd_160.cpp:71-73 | four bytes joined by shifts and or are the little-endian number |
| Ripemd160.StoreBytes | actor-framework/libcaf_core/src/ripemd_160.cpp:402-408 | the stored bytes are the chain words, low-order byte first |
| Attachables.ActorBase.Attach | actor-framework/libcaf_core/src/abstract_actor.cpp:68-84 | a live actor puts the attachable at the head of its list, an exited one calls it at once |
| Attachables.ActorBase.DetachImpl | actor-framework/libcaf_core/src/abstract_actor.cpp:86-105 | what is left of the list and the number reported, for remove-all, remove-first, and dry runs that end: those that stop on a hit or meet none |
| Attachables.ActorBase.Detach | actor-framework/libcaf_core/src/abstract_actor.cpp:107-111 | exactly the entries not selected stay, in order, and the number removed is returned |
| Attachables.KeptMeaning | actor-framework/libcaf_core/src/abstract_actor.cpp:86-105 | nothing selected stays, nothing else goes, with its multiplicity, and removed plus left is the old length |
| Attachables.WithoutFirstMeaning | actor-framework/libcaf_core/src/abstract_actor.cpp:95-104 | stopping on a hit removes the first hit alone, and nothing if there is none |
| Attachables.ActorBase.Cleanup | actor-framework/libcaf_core/src/abstract_actor.cpp:203-225 | the first cleanup sets the reason and takes the whole list, a later one does nothing |
| Attachables.EachCallbackOnce | actor-framework/libcaf_core/src/abstract_actor.cpp:203-225 | in every interleaving, once the actor has exited and no call is outstanding, each callback that the run attached and did not detach has run exactly once with the reason of the first cleanup, and no other has run |
| Attachables.CallsCanRun | actor-framework/libcaf_core/src/abstract_actor.cpp:219-224 | from every point of every run the outstanding calls can run, and none is left then |
| Attachables.NeverTwice | actor-framework/libcaf_core/src/abstract_actor.cpp:68-111 | at no point has a callback run twice, or one that was not attached or was detached, or with another reason |
| Attachables.RunRemembers | actor-framework/libcaf_core/src/abstract_actor.cpp:68-111 | what is attached and detached is what the events of the run say: a detach takes the callbacks of its kind attached before it, up to the first cleanup |
| ActorLinks.LinksAreSymmetric | actor-framework/libcaf_core/src/abstract_actor.cpp:128-197 | in every run of link, unlink, exit and attach, two live actors whose mutexes are free each hold one entry for the other or neither holds any |
| ActorLinks.AtMostOneEntry | actor-framework/libcaf_core/src/abstract_actor.cpp:148-162 | at every point an actor has at most one link entry for another and none for itself |
| ActorLinks.AdvanceKeepsPair | actor-framework/libcaf_core/src/abstract_actor.cpp:128-197 | each section of a link or unlink keeps the invariant between the two actors |
| ActorLinks.AdvanceKeepsThird | actor-framework/libcaf_core/src/abstract_actor.cpp:128-197 | and that of either with any third actor |
| ActorLinks.ChangeKeepsInv | actor-framework/libcaf_core/src/abstract_actor.cpp:203-216 | so do exiting, attaching something else and beginning an operation |
| LinkProgress.LinkCompletes | actor-framework/libcaf_core/src/abstract_actor.cpp:128-162 | from every state of every run, linking two live actors with free mutexes takes four undisturbed steps and leaves one entry on each side, both mutexes free and everybody else as before |
| LinkProgress.UnlinkCompletes | actor-framework/libcaf_core/src/abstract_actor.cpp:164-197 | unlinking by a live actor takes three and leaves no entry on either side |
| LinkProgress.LinkToExited | actor-framework/libcaf_core/src/abstract_actor.cpp:128-162 | a link begun by an exited actor or towards one changes nothing |
| LinkProgress.ExitDropsLinks | actor-framework/libcaf_core/src/abstract_actor.cpp:203-216 | an exiting actor has its reason and no entry left, the others keep theirs |
| LinkProgress.StuckIff | actor-framework/libcaf_core/src/abstract_actor.cpp:128-197 | in every run no step of any link or unlink under way can do anything if and only if all of them wait for each other's mutexes |
| LinkProgress.DeadlockStays | actor-framework/libcaf_core/src/abstract_actor.cpp:128-197 | actors that wait for each other's mutexes do so forever, whatever else happens |
| LinkProgress.CrossingLinksDeadlock | actor-framework/libcaf_core/src/abstract_actor.cpp:128-153 | two live actors that link each other at the same time get there |
| MatchCache.MatchExpr.Apply | actor-framework/libcaf_core/caf/match_expr.hpp:472-481 | through the cache the result is that of trying the cases in order without it |
| MatchCache.MatchExpr.ApplyAll | actor-framework/libcaf_core/caf/match_expr.hpp:472-481 | for every sequence of messages |
| MatchCache.MatchExpr.GetCacheEntry | actor-framework/libcaf_core/caf/match_expr.hpp:441-461 | the mask is the computed one, or all cases for a dynamically typed message; a new token is added last and a full buffer loses the oldest; live slots keep distinct tokens and correct masks |
| MatchCache.MatchExpr.FindTokenPos | actor-framework/libcaf_core/caf/match_expr.hpp:432-439 | the slot of a token, or the end exactly if no live slot has it |
| MatchCache.MatchExpr.Insert | actor-framework/libcaf_core/caf/match_expr.hpp:450-459 | the ring buffer's live slots after writing at the end |
| MatchCache.UnrollIsInOrder | actor-framework/libcaf_core/caf/match_expr.hpp:216-241 | a mask that keeps every case that can match does not change the result |
| MatchCache.BitmaskMeaning | actor-framework/libcaf_core/caf/match_expr.hpp:248-256 | bit k of the mask is set exactly if case k matches |
| BinaryCodec.IntRoundTrip | actor-framework/libcaf_core/src/binary_serializer.cpp:32-37 | the bytes appended for an integer that fits are read back as that integer |
| BinaryCodec.IntBytesOfValue | actor-framework/libcaf_core/src/binary_deserializer.cpp:59-65 | every byte string is what is written for the value read from it |
| BinaryCodec.StringRoundTripIff | actor-framework/libcaf_core/src/binary_serializer.cpp:75-91 | a string comes back, with any bytes behind it untouched, if and only if it has fewer than 2^32 characters |
| BinaryCodec.Sink.WriteString | actor-framework/libcaf_core/src/binary_serializer.cpp:75-91 | size and characters are appended |
| BinaryCodec.Source.ReadInt | actor-framework/libcaf_core/src/binary_deserializer.cpp:50-65 | reads the value and moves on, or fails at the same place if the buffer is too short; the position never passes the end |
| BinaryCodec.Source.BeginSequence | actor-framework/libcaf_core/src/binary_deserializer.cpp:176-183 | the same for a sequence size |
| BinaryCodec.Source.ReadString | actor-framework/libcaf_core/src/binary_deserializer.cpp:97-108 | appends the characters read to the string given, or fails without moving |
| TreeCodec.SerializeNode | actor-framework/examples/type_system/announce_5.cpp:109-117 | exactly the encoding of the tree is appended |
| TreeCodec.DeserializeNode | actor-framework/examples/type_system/announce_5.cpp:119-129 | on every buffer it ends, with the tree decoded or a failure, and never passes the end; a node takes at least 8 bytes |
| TreeCodec.DecodeEncode | actor-framework/examples/type_system/announce_5.cpp:109-129 | a tree with fewer than 2^32 children per node is read back with any trailing bytes left over |
| TreeCodec.EncodeDecode | actor-framework/examples/type_system/announce_5.cpp:109-129 | whatever bytes decode are the encoding of the result followed by the rest |
| TreeCodec.RoundTripIff | actor-framework/examples/type_system/announce_5.cpp:109-129 | a tree is read back if and only if every node has fewer than 2^32 children |
| TimerLoop.TimerActor.InsertDmsg | actor-framework/libcaf_core/src/abstract_coordinator.cpp:71-77 | the message is queued at clock plus delay behind all with the same or an earlier deadline; nothing else changes |
| TimerLoop.TimerActor.Sweep | actor-framework/libcaf_core/src/abstract_coordinator.cpp:121-128 | the loop delivers the due entries at the front, in order, with this clock reading, and leaves the others |
| TimerLoop.DueMeaning | actor-framework/libcaf_core/src/abstract_coordinator.cpp:121-128 | of a queue in order those are exactly the entries that are due |
| TimerLoop.TimerActor.Act | actor-framework/libcaf_core/src/abstract_coordinator.cpp:95-138 | from any state the actor ends where the run of the events ends: same pending, same deliveries with their times |
| TimerLoop.RunInOrder | actor-framework/libcaf_core/src/abstract_coordinator.cpp:95-138 | in every run with a clock that never goes back, delivered then pending are the stable sorting of exactly what the events up to the first exit asked to delay: order of deadline across all sweeps, ties in order of insertion, nothing lost, nothing twice, nothing early |
| TimerLoop.EachMessageLeavesOnTime | actor-framework/libcaf_core/src/abstract_coordinator.cpp:116-137 | each delay message, whatever came before and comes after it, is delivered at the first sweep at or after its deadline that comes before an exit; if there is none it is pending at the end |
| TimerLoop.StableSortMeaning | actor-framework/libcaf_core/src/abstract_coordinator.cpp:100-107 | the reference order is sorted by deadline, then insertion, and is a permutation |
| TimerLoop.InsertBehind | actor-framework/libcaf_core/src/abstract_coordinator.cpp:123-128 | a message inserted after a sweep never belongs before one already delivered |

## Left out

- Factoriser: connecting to hosts, spawning and killing workers, ping and quit messages, and the clock readings in printed times; n = 0.
- Client.Factor: the end test does not mean that the factorisation is complete, and the code does not guarantee it, so nothing of the kind is claimed; a p below 2 never arrives (NumbersDivideStart).
- Burst: the counter of cycles is unbounded here; primality of factors is not claimed, since any p other than n is sent.
- BurstFindsSmallDivisor: needs an n below 2^256, where the 512-bit arithmetic is exact (ArithmeticExactIff), or an even one; OverflowMissesDivisor shows a failure beyond. That every larger odd n with a small divisor has a failing draw is not claimed: it depends on the gcds of walks that overflow, for each n.
- TupleCast: patterns without any type, for which the source never defines the type of the result; a type read at the end of the message counts as no match.
- DiningPhilosophers: that a philosopher does eat at some time, which needs fairness (EveryoneCanEat says he always can); the five-second delays.
- SharedSpinlock: modelled on values, as interleavings need; progress of a spinning loop that others keep disturbing is not claimed.
- GroupRegistry: modelled on values for the same reason; the table from a remote broker to its proxy, which deserialize looks up and fills under a lock of its own.
- GroupMembership: the removal of a proxy after its broker's down message.
- GroupTraffic: counts per place; one actor subscribed at home and on a node gets a copy at each.
- Ripemd160: the two parallel lines of five rounds that make up the compression function; the theorems hold for every function in its place.
- Attachables: the list is a sequence instead of linked nodes; attaching a null pointer, which does nothing.
- DetachImpl: a dry run that does not stop and meets a hit, on which the source recurses forever.
- ActorLinks: the exit messages sent to linked actors; proxies that override linking.
- MatchCache: more than 31 cases, whose masks are undefined shifts of an int; copying a message before a manipulating case runs.
- BinaryCodec: floating point, atoms, raw bytes and type names; a narrow string is cleared before reading, which is ReadString with an empty string and characters of one byte.
- TimerLoop: blocking for messages and the choice of when to sweep, which here come as events; the printer actor in the same file, which collects and prints lines of text per actor.
- The rest of the framework: brokers and their sockets, the work-stealing schedulers and their threads, mapping of C++ type names to portable ones, logging, singletons, and the Qt and curl examples.
