# UDP server and clients: model and proofs

A Dafny 4.11 model of the programs that measure UDP throughput and packet loss: the
sending `server`, the receivers `udp-read-trend` and `udp-mmsg-trend`, the older `client`
and `epoll-client`, and the parsers they share. `dafny verify dfyconfig.toml` checks
everything.

## How the model is built

Each program's loop is a method of a class (`Server.Process`, `TrendClient.Process`,
`MmsgClient.Process`, `EpollClient.Process`, `Client.Run`) with the source's variables as
fields and its buffers as arrays. Its `ensures` equates the new state with a specification
function on values, and the theorems are lemmas about those functions for every history of
system-call outcomes, alarms and clock readings. Nothing outside the programs is assumed
except through explicit parameters: what the kernel answers to each call, the time of day,
the bytes malloc returns.

On top of the single programs stands the whole system: `World` runs one session of the
server, a network that may lose, duplicate and reorder, and one of the two receivers, byte
for byte. Each of its steps is proved to refine a move of `Flow`, where only sequence
numbers travel, and the theorems about losses are carried back from there.

| file | what it holds |
|---|---|
| `Word64.dfy`, `Cardinality.dfy`, `Bytes.dfy`, `Decimal.dfy`, `Lexing.dfy`, `Timeval.dfy` | machine words, counting, byte and digit strings, clock values |
| `Ledger.dfy`, `Meter.dfy`, `Alarms.dfy` | loss accounting modulo 2^64; totals, interval counters and reports; has_alarm at a loop top |
| `Sockets.dfy` | `read`/`write` on streams and datagram sockets, `readn`, `writen`, framing |
| `Server.dfy` | the request global, the send loop, the server over many clients |
| `TrendClient.dfy`, `MmsgClient.dfy` | the one-at-a-time and the batched receiver, and their equivalence |
| `Flow.dfy`, `World.dfy` | the whole system, under loss, duplication and reordering |
| `GetNum.dfy`, `SetTimer.dfy` | `get_num` and `conv_str2timeval` |
| `HostList.dfy`, `EpollClient.dfy` | the heap list and the epoll loop |
| `Client.dfy` | the strict and `-G` acceptance loop |

Consequences worth knowing:

- The drop counter is exact after a datagram if and only if datagrams that overtook it and
  duplicates cancel out modulo 2^64 (`Ledger.ExactIff`). Reordering therefore heals;
  a duplicate does not, and without losses it takes the counter from zero to 2^64 - 1. An
  empty datagram, which `readn` takes for an end of file, makes the receiver count the
  previous number again and hides one drop.
- On a datagram socket `readn` keeps one read to one datagram only if the datagram is at
  least as long as the request; a shorter one is glued to its successor. Over nonempty
  datagrams the batched and the single receiver therefore agree if and only if no datagram
  is shorter than the buffer (`MmsgClient.BatchRefinesSingle`).
- The header comment of `get_num` limits factors to positive numbers. A zero first factor
  is handled; a zero right-hand factor traps in the overflow test, exactly as
  `GetNum.TrapsIff` says.
- The same comment speaks of decimal numbers; the code also takes what strtouq takes in
  base 0: leading space, a sign (a minus negates modulo 2^64), octal and hexadecimal. In
  hexadecimal the letters of the 512-byte unit are digits.
- The comment in `conv_str2timeval` speaks of nine digits; the multiplier is zero after
  six, and the model follows the code.
- The top-level README says that the sequence number is an `int`; the code sends an
  `unsigned long`, and the model follows the code.
- A request that ends before the nanosecond field, such as the 8 bytes that `client` sends,
  leaves the nanosecond pause of an earlier client in force.

## Model

| member | source | states |
|---|---|---|
| `Word64.WrapIsModulo` | udp-read-trend/udp-read-trend.c:259-269 | the word that the 64-bit counters keep of any number is the number modulo 2^64 |
| `Word64.Wrap32IsModulo` | client/client.c:173-183 | the 32-bit counter keeps of any number the number modulo 2^32 |
| `Ledger.Conservation` | udp-read-trend/udp-read-trend.c:259-270 | for every log of sequence numbers, with loss, reordering, duplicates and wrap-around: the expected counter is datagrams processed plus drops modulo 2^64, and one past the last number |
| `Ledger.DropsExplained` | udp-read-trend/udp-read-trend.c:259-270 | the drop counter of any nonempty log is the count of smaller missing numbers minus overtakers minus duplicates, modulo 2^64 |
| `Ledger.ExactIff` | udp-read-trend/udp-read-trend.c:259-270 | the counter equals the count of missing numbers exactly when overtakers plus duplicates vanish modulo 2^64 |
| `Ledger.SelfHealing` | udp-read-trend/udp-read-trend.c:259-270 | for duplicate-free logs in any order the counter is exact precisely when the newest number is the largest so far |
| `Ledger.InOrderAlwaysExact` | udp-read-trend/udp-read-trend.c:259-270 | without reordering the counter is exact after every datagram |
| `Ledger.RepeatsUndercount` | udp-read-trend/udp-read-trend.c:259-270 | when the newest number is the largest, up to 2^64 - 1 duplicates take exactly their number off the count of missing numbers, and the counter wraps below zero when they outnumber them |
| `Meter.AccountedBalanced` | udp-read-trend/udp-read-trend.c:257-270 | accounting for a read keeps reports plus running interval equal to the totals, and the totals equal to those of the log |
| `Meter.ReportedBalanced` | udp-read-trend/udp-read-trend.c:215-238 | printing and clearing an interval loses no byte, read, drop or microsecond |
| `Meter.ReportedTold` | udp-read-trend/udp-read-trend.c:215-238 | a report gives the time since the start, the time since the report before and exactly the reads since then, all read off the clock and the log |
| `Meter.AccountedTold` | udp-read-trend/udp-read-trend.c:257-270 | a read changes no earlier report, and the running interval is the reads since the last one |
| `Meter.ReadsAreExpectedMinusDrops` | udp-read-trend/udp-read-trend.c:226-236 | the printed reads, summed up, are expected counter minus drop counter modulo 2^64 |
| `Meter.Meters.Account` | udp-read-trend/udp-read-trend.c:257-270 | the assignments to totals and interval counters realise one accounting step |
| `Meter.Meters.Print` | udp-read-trend/udp-read-trend.c:215-238 | the report prints the interval that then starts anew |
| `Timeval.TimerSub` | udp-read-trend/udp-read-trend.c:219-220 | the difference of two times is exact in microseconds and normalised when they are |
| `Sockets.StreamConserves` | server/readn.c:3-25 | on a stream, delivered plus remaining bytes are the original bytes, for every history and outcome |
| `Sockets.ShortOnlyAtEnd` | server/readn.c:18-24 | `readn` returns less than n only at an end of file or an empty datagram |
| `Sockets.DrainStatus` | server/readn.c:11-24 | in either mode: `readn` fails exactly at an error met before n bytes, an end of file or an empty datagram; it keeps waiting exactly when all that arrives is short of n bytes and has none of these |
| `Sockets.DrainConsumes` | server/readn.c:11-24 | on a datagram socket a beginning of the arrivals is used up, with an error in it exactly on failure |
| `Sockets.InterruptsAreInvisible` | server/readn.c:13-15 | interrupted calls anywhere change neither data nor outcome nor what remains |
| `Sockets.DrainTakesFirst` | server/readn.c:12-24 | over datagrams no shorter than the request, one `readn` takes exactly the first and leaves the others |
| `Sockets.DrainTakesSome` | server/readn.c:12-24 | over nonempty datagrams a call that returns has taken at least one of them, at least two if the first is shorter than the request, has filled the request with the first in front, and leaves the others as they were |
| `Sockets.DrainBlocks` | server/readn.c:12-17 | with no datagram queued the call cannot return, however often it is interrupted |
| `Sockets.OneReadOneDatagramIff` | server/readn.c:12-24 | a datagram is read alone exactly when it is at least as long as the request, or empty |
| `Sockets.StreamWritesPrefix` | server/readn.c:34-47 | on a stream a prefix of the data goes out, each byte once, all of it exactly on success |
| `Sockets.StreamWriteWaits` | server/readn.c:33-47 | on a stream the call keeps waiting exactly when no answer is an error or takes nothing and all together take less than the data |
| `Sockets.WritesOneDatagram` | server/readn.c:34-47 | one `writen` is one datagram or nothing; it succeeds exactly when the first real answer accepts and the payload fits, and waits exactly when there is no real answer |
| `Sockets.FramingRoundTrip` | server/readn.c:3-48 | what one `writen` sends one `readn` returns, sequence number intact, whatever interrupts either side |
| `Sockets.Readn` | server/readn.c:3-25 | the loop over the caller's buffer returns, stores and leaves exactly what the specification says, and terminates |
| `Sockets.Writen` | server/readn.c:27-48 | the loop sends exactly the specified units and terminates |
| `Server.RequestTakesEffect` | server/server.c:113 | from 12 bytes on the three ints are those of the current request; the nanosecond field is current if the request has it and untouched if it ends before |
| `Server.NsecEffect` | server/server.c:113 | of any request, empty ones included: 24 bytes or more set the nanosecond pause, 16 or fewer leave it as it was |
| `Server.BytesAreInherited` | server/server.c:102-113 | over any run of requests of any lengths, each byte of the request global is that of the latest request long enough to reach it, or zero |
| `Server.NsecIsInherited` | server/server.c:102-113 | over any run of requests of at most 16 or at least 24 bytes the nanosecond pause in force is that of the latest request that had the field |
| `Server.RequestedSize` | server/server.c:138 | the buffer size is the one the client encoded, whatever was in the global before |
| `Server.RequestReadBack` | server/server.c:113-138 | round trip of the whole request: the server works with the four signed numbers the receiver put in the struct |
| `Server.TickedContiguous` | server/server.c:154-183 | every turn of the send loop keeps the numbering, the framing and the interval counts |
| `Server.RanContiguous` | server/server.c:148-183 | over every session: written numbers are 0, 1, 2, ... without gap, failed writes use none, closed plus running intervals add up to the next number |
| `Server.OversizeSendsNothing` | server/server.c:138-171 | a size beyond a UDP payload is accepted and the session ends without a datagram |
| `Server.AlarmsCloseIntervals` | server/server.c:154-173 | one interval for each turn begun with has_alarm set and no other, with the time since the session's start and the writes since the interval before; every datagram carries malloc's bytes behind its number |
| `Server.SessionEnds` | server/server.c:167-185 | a session is over exactly when a write was refused, or the payload does not fit, after all before were taken; it hangs exactly when that write got no answer; the successful writes are those before |
| `Server.EverySessionContiguous` | server/server.c:102-190 | over every run of clients each session is contiguous from zero and uses its own request's size |
| `Server.ServesNext` | server/server.c:102-190 | the i-th client is served exactly when its request is for at least eight bytes and every session before it ended with a refused write; its session runs with the global left by the requests so far |
| `Server.EveryClientServed` | server/server.c:102-190 | all clients are served exactly when all requests are usable and every session but the last ends with a refused write |
| `Server.Process.Begin` | server/server.c:103-153 | receiving a request overwrites only its length of the global and opens a session at number zero |
| `Server.Process.Turn` | server/server.c:155-173 | one pass of the send loop on the real buffer and socket realises one specified turn and prints only when asked |
| `Server.Process.Send` | server/server.c:154-183 | the inner loop realises the specified session |
| `Server.Process.Serve` | server/server.c:102-190 | the outer loop yields exactly the specified sequence of sessions and prints exactly their interval counts, if asked |
| `TrendClient.TurnedSound` | udp-read-trend/udp-read-trend.c:214-271 | every turn keeps reports balanced and the newest number in the buffer |
| `TrendClient.ReportsLoseNothing` | udp-read-trend/udp-read-trend.c:214-271 | for every history and every placing of alarms: sums of reports plus running interval are the totals, interval durations sum to the elapsed time, and conservation holds |
| `TrendClient.AlarmsAreReported` | udp-read-trend/udp-read-trend.c:214-238 | one report for each turn begun with has_alarm set and no other; its times are that turn's clock minus the start and minus the report before, and it covers exactly the reads between |
| `TrendClient.EndsForAReason` | udp-read-trend/udp-read-trend.c:251-256 | a run has exited exactly if an error was among the arrivals it used up, still runs exactly if every turn accounted for a read, and else waits with nothing left |
| `TrendClient.PrintedTimesNormal` | udp-read-trend/udp-read-trend.c:218-221 | every printed time is normalised |
| `TrendClient.EmptyDatagramHidesADrop` | udp-read-trend/udp-read-trend.c:251-269 | an empty datagram takes one off the drop counter |
| `TrendClient.RunIsOneByOne` | udp-read-trend/udp-read-trend.c:251-270 | wherever interrupts and alarms fall, k turns account for exactly the first k datagrams that fill the buffer |
| `TrendClient.OneByOneLog` | udp-read-trend/udp-read-trend.c:257-269 | accounting one datagram after the other logs each one's own stamped number, in order |
| `TrendClient.OneByOneBytes` | udp-read-trend/udp-read-trend.c:257-258 | and adds up the bytes the buffer holds of each, modulo 2^64 |
| `TrendClient.ShortDatagramsLogFewer` | udp-read-trend/udp-read-trend.c:251-270 | over nonempty datagrams no run accounts for more reads than there are datagrams, and for strictly fewer once a datagram is shorter than the buffer |
| `TrendClient.ReadsAreFull` | udp-read-trend/udp-read-trend.c:251-258 | over nonempty datagrams of any length every read counts exactly the buffer size |
| `TrendClient.NumberOfTheFirst` | udp-read-trend/udp-read-trend.c:251-259 | a read counts under the number of the first datagram in it, whatever is glued behind |
| `TrendClient.Process.Loop` | udp-read-trend/udp-read-trend.c:214-271 | the receive loop on buffer, socket and counters realises the specified run |
| `MmsgClient.FoldIsOneByOne` | udp-mmsg-trend/udp-mmsg-trend.c:249-264 | folding the first n slots accounts for the n datagrams of eight bytes or more, each under its own number and with the bytes the buffer holds of it, though a slot keeps stale bytes behind a short datagram |
| `MmsgClient.StaleBytesShow` | udp-mmsg-trend/udp-mmsg-trend.c:249-252 | a datagram of fewer than eight bytes counts its own length under a number completed with the slot's old bytes |
| `MmsgClient.RunIsOneByOne` | udp-mmsg-trend/udp-mmsg-trend.c:243-266 | however the stream is cut into batches, for all datagrams of eight bytes or more the totals are those of one datagram after the other |
| `MmsgClient.RunLogsEach` | udp-mmsg-trend/udp-mmsg-trend.c:243-266 | every datagram of every batch is accounted for once, whatever its length |
| `MmsgClient.BatchRefinesSingle` | udp-mmsg-trend/udp-mmsg-trend.c:179-266 | on the same nonempty datagrams the batched and the single receiver reach the same bytes, drops, expected counter and log if and only if no datagram is shorter than the buffer |
| `MmsgClient.CountersAgreeIff` | udp-mmsg-trend/udp-mmsg-trend.c:249-264 | with fewer than 2^64 datagrams the drop and the expected counter alone agree if and only if no datagram is shorter than the buffer |
| `MmsgClient.ShortDatagramsDiffer` | udp-mmsg-trend/udp-mmsg-trend.c:249-252 | the smallest case: two datagrams that together fill the buffer are two reads to the batched receiver and one to the single |
| `MmsgClient.RanBalanced` | udp-mmsg-trend/udp-mmsg-trend.c:217-266 | the count-driven reports lose nothing over any run |
| `MmsgClient.ReportSchedule` | udp-mmsg-trend/udp-mmsg-trend.c:216-265 | the first report covers 999 calls, every later one 1000, and after k calls (k + 1) / 1000 are made |
| `MmsgClient.ReportsAndFailure` | udp-mmsg-trend/udp-mmsg-trend.c:217-265 | whatever the calls return: the j-th report is that of turn 1000 j + 999 with that turn's clock and exactly the datagrams since the report before; a failed call stops the run for good and counts nothing |
| `MmsgClient.RecvMmsg` | udp-mmsg-trend/udp-mmsg-trend.c:243 | the call fills the first slots in place and leaves the others as they were |
| `MmsgClient.Process.constructor` | udp-mmsg-trend/udp-mmsg-trend.c:179-216 | the vector setup gives separate zeroed buffers of the requested size |
| `MmsgClient.Process.FoldIn` | udp-mmsg-trend/udp-mmsg-trend.c:249-264 | the inner loop folds in exactly the first n slots |
| `MmsgClient.Process.Loop` | udp-mmsg-trend/udp-mmsg-trend.c:217-266 | the outer loop realises the specified run |
| `Flow.MovedPlaced` | udp-read-trend/udp-read-trend.c:251-270 | sending, losing, duplicating, reordering and accounting keep every number written, and every copy of one, in exactly one place |
| `Flow.RepeatsAreCopies` | udp-read-trend/udp-read-trend.c:259-269 | no more repeats are accounted for than the network made copies |
| `Flow.DropsExplained` | udp-read-trend/udp-read-trend.c:259-269 | under loss, duplication and reordering the counter is the outstanding smaller numbers minus overtakers minus repeats modulo 2^64, and repeats are at most the network's copies |
| `Flow.DropsAreOutstanding` | udp-read-trend/udp-read-trend.c:259-269 | without duplication the counter is the number of smaller outstanding numbers exactly when the newest is the largest |
| `Flow.DropsAreLosses` | udp-read-trend/udp-read-trend.c:259-269 | with the order kept the counter is the number of lost numbers below the expected one |
| `World.HandshakeIsInitial` | udp-read-trend/udp-read-trend.c:179-182 | every request for 8 to 65507 bytes starts the server and either receiver with the same buffer size |
| `World.ServerTurnRefines` | server/server.c:154-173 | a server turn on bytes sends at most the next number |
| `World.SendsIff` | server/server.c:154-173 | a number is sent exactly if the session is sending and the kernel takes the write |
| `World.ReadRefines` | udp-read-trend/udp-read-trend.c:251-270 | a turn of the single receiver on bytes accounts for exactly the oldest queued number |
| `World.ReadBatchRefines` | udp-mmsg-trend/udp-mmsg-trend.c:243-265 | a turn of the batched receiver on bytes accounts for exactly the numbers of its batch, oldest first |
| `World.ReceiverMoves` | udp-mmsg-trend/udp-mmsg-trend.c:243-265 | a turn of either receiver with something queued takes what it reads, and nothing else |
| `World.DropsExplained` | udp-read-trend/udp-read-trend.c:251-270 | over every run of server, losing, duplicating and reordering network and either receiver with at most 2^64 sends: drops are outstanding smaller numbers minus overtakers minus repeats modulo 2^64, with no more repeats than copies made |
| `World.DropsAreOutstanding` | udp-read-trend/udp-read-trend.c:251-270 | over every run without duplication with at most 2^64 sends, for either receiver: drops are the outstanding smaller numbers exactly when the newest is the largest |
| `World.LossExactness` | udp-read-trend/udp-read-trend.c:251-270 | over every run without duplication and reordering and with fewer than 2^64 sends, for either receiver: drops are exactly the losses below the expected number, and nothing in flight is counted |
| `World.BytesAreSizeTimesDatagrams` | udp-read-trend/udp-read-trend.c:257-258 | the byte total of every run, of either receiver, is buffer size times datagrams accounted for, modulo 2^64 |
| `GetNum.DivideBack` | server/get_num.c:91-109 | the wrapped product divided by the nonzero factor gives back the other factor exactly when the true product is below 2^64 |
| `GetNum.MultiplyBy` | server/get_num.c:92-96 | multiply, divide back and compare decides overflow exactly |
| `GetNum.GetNum` | server/get_num.c:50-119 | the recursive evaluator on wrapping words computes the value in unbounded arithmetic, and terminates |
| `GetNum.PrintedProductExact` | server/get_num.c:36-119 | for all positive factors, in decimal, octal or hexadecimal, with optional units and any joiners: the printed product evaluates to the true product if it fits, else fails, with the message that the first number out of range calls for |
| `GetNum.NumeralExact` | server/get_num.c:50-66 | every number from 0 on, printed in decimal, octal or hexadecimal with letters of either case, either prefix and extra zeros, evaluates to itself below 2^64 and fails for range from there on |
| `GetNum.FactorInFront` | server/get_num.c:50-119 | a factor in front of any text: its own failure comes first, then the text's, then the trap on zero, then the range of the product |
| `GetNum.TrailingTextIsIllegal` | server/get_num.c:100-117 | anything but a joiner behind a product in range, a letter that is no unit or a second unit included, is illegal |
| `GetNum.NoDigitIsIllegal` | server/get_num.c:56-64 | text without a digit behind white space and sign is illegal |
| `GetNum.SucceedsIff` | server/get_num.c:50-119 | for every string: success exactly when it has product form, no right-hand factor is zero and the products fit; the value is the true product |
| `GetNum.TrapsIff` | server/get_num.c:106-109 | the division by zero happens exactly for a zero right-hand factor that evaluation reaches |
| `GetNum.HexIsNotAProduct` | server/get_num.c:56 | 0x or 0X with any hex digits behind it is one hexadecimal number, never a product |
| `GetNum.OctalNumeral` | server/get_num.c:56 | a leading zero makes any string of octal digits octal |
| `GetNum.SpaceAndSign` | server/get_num.c:56 | the six white-space characters and a sign in front of any numeral change nothing but the sign and the position |
| `GetNum.SpaceInFront` | server/get_num.c:56 | white space and a plus in front of any expression change nothing |
| `GetNum.MinusNegates` | server/get_num.c:56-63 | a minus sign yields 2^64 minus the number, in any base, without an error below 2^64 |
| `GetNum.NegativeFactor` | server/get_num.c:56-97 | a unit multiplies the negated number, with the range test on that product |
| `SetTimer.SignedOverflowDetected` | udp-read-trend/set_timer.c:124-128 | dividing the wrapped 64-bit value back by ten detects every overflow |
| `SetTimer.FractionStep` | udp-read-trend/set_timer.c:139-147 | adding digit times weight keeps the microseconds the floor of the denoted fraction, for any number of digits |
| `SetTimer.ConvStr2Timeval` | udp-read-trend/set_timer.c:107-154 | the two loops store exactly the denoted time, or fail and leave the result untouched |
| `SetTimer.AcceptedIff` | udp-read-trend/set_timer.c:107-154 | success exactly for digits, optionally a dot and digits, with whole part below 2^63; the result is normalised and is the floor of 10^6 times the decimal |
| `SetTimer.PastSixthIgnored` | udp-read-trend/set_timer.c:133-147 | strings that differ only past the sixth decimal convert alike |
| `SetTimer.RenderedConvertsBack` | udp-read-trend/udp-read-trend.c:226-228 | converting the printed form of a normalised nonnegative time gives it back |
| `HostList.AddressBeforeColon` | epoll-client/host_info.c:21-28 | for every argument the address is the text before the first colon and the port what `atoi` makes of all the text behind it |
| `HostList.EndpointReadsBack` | epoll-client/host_info.c:21-28 | the port is the number behind the first colon, with any white space and sign in front and whatever text follows; without a digit it is 0, and without a colon the default port applies |
| `HostList.ListsAreAcyclic` | epoll-client/host_info.c:43-54 | a list that ends visits no node twice |
| `HostList.Addend` | epoll-client/host_info.c:43-54 | appends the node by changing only the last `next`, and terminates |
| `HostList.Addfront` | epoll-client/host_info.c:37-41 | puts the node in front of an unchanged list |
| `HostList.BuildList` | epoll-client/epoll-client.c:136-142 | the list's traversal is the arguments' hosts in command-line order |
| `EpollClient.RegisterAll` | epoll-client/epoll-client.c:152-193 | walking the list opens and registers every host once and keeps the list |
| `EpollClient.HandledLive` | epoll-client/epoll-client.c:218-247 | one event keeps n_server equal to the registered open sockets and every host's counters equal to its nonempty reads |
| `EpollClient.BatchIsSafe` | epoll-client/epoll-client.c:218-248 | every event of a batch meets an open registered socket, and the normal exit can only be at the last one |
| `EpollClient.LivenessAccounting` | epoll-client/epoll-client.c:203-249 | over every run: the accounting holds, batches fit the array sized at the start, and the exit comes exactly when the last host has closed |
| `EpollClient.CountsAreTheReads` | epoll-client/epoll-client.c:203-249 | over every run, told from the waits alone: a host's counters are the bytes and number of its nonempty reads modulo 2^64, it is closed exactly if a read was empty, the program fails exactly at the first error before all hosts have closed, and finishes exactly when they have |
| `EpollClient.Process.HandleBatch` | epoll-client/epoll-client.c:218-248 | the loop over the event array stays in bounds and realises the specified batch |
| `EpollClient.Process.Loop` | epoll-client/epoll-client.c:203-249 | the event loop realises the specified run |
| `Client.StrictAcceptance` | client/client.c:144-184 | strict mode reaches the count exactly when the maximum is below 2^32 and the first max datagrams carry 0..max-1 in order |
| `Client.StrictGap` | client/client.c:173-181 | strict mode stops with a sequence error exactly if some number looked at is not its own index modulo 2^32 |
| `Client.LargeMaximumUnreachable` | client/client.c:47-48 | a maximum of 2^32 or more is never reached, in either mode |
| `Client.LenientStop` | client/client.c:173-183 | with -G and a positive maximum it stops exactly at the first number whose 32-bit successor is the maximum, for all 64-bit numbers |
| `Client.LenientAcceptance` | client/client.c:173-183 | below 2^32 - 1 that is the first occurrence of max - 1 |
| `Client.NumbersAreStamped` | client/client.c:163-172 | for datagrams of at least eight bytes the numbers compared are those in the datagrams |
| `Client.ReadErrorIff` | client/client.c:163-170 | a read error ends the program exactly if the loop is still waiting when it comes |
| `Client.EmptyReadRepeats` | client/client.c:162-173 | an empty datagram is taken for the number before once more |
| `Client.CountReachedIff` | client/client.c:144-184 | on datagrams of at least eight bytes: strict mode reaches the count exactly when the maximum is below 2^32 and the first max datagrams carry 0..max-1, and stops with a sequence error exactly at a gap before; with -G the count is reached exactly when some number's 32-bit successor is the maximum, at once for zero; no read error occurs |
| `Client.Run` | client/client.c:144-184 | the loop with its retried read ends as the specification says |

## Left out

- Rates, `float2timeval`, `str2timeval` and `str2useconds`: results of IEEE double rounding.
- Signal delivery: has_alarm becomes a flag found set or not at each loop top, EINTR an outcome of a call; the final line printed at SIGINT shows the totals that the proofs are about.
- `usleep`, `bz_usleep`, `bz_nanosleep`: the pauses have no effect on state; only which pause values are in force is modelled.
- Strings are C strings without their terminator; character classes are those of the C locale.
- Failures of socket, bind, connect, recvfrom and of the request's write, which end the programs before their loops.
- Option parsing, usage text, log output other than the reports, CPU pinning, socket option calls, the PAUSE frame of `client -f`.
- Server.Process.Begin: a request for fewer than eight bytes makes the first stamp write past the buffer, which C leaves undefined; the model stops there. A negative size is taken to fail in malloc; other malloc failures are assumed away.
- TrendClient.Process.Loop: requires a buffer size of 0 to 65536, because the source does not check it against its 64 KiB buffer.
- MmsgClient.Process.constructor: requires a buffer size of at least eight, because the source reads eight bytes from every slot.
- HostList.EndpointReadsBack: port numerals below 2^31; for larger ones C leaves `atoi` undefined, and the model uses strtol's result converted to int.
- World.DropsExplained: one session of the server and one receiver, whose turns start when something is queued.
- World.DropsAreOutstanding: runs in which nothing was duplicated; `World.DropsExplained` covers the others.
- The `-b` size and the receive buffer of `epoll-client`: bytes read are counted, not kept.
- EpollClient.Process.Loop: epoll_wait is taken to return different registered hosts, at most n_server of them, as its manual page says; failures of the setup calls are left out.
- Sockets.Readn: a history is finite; a call still waiting when it ends is reported as blocked.
- MmsgClient.ReportSchedule: fewer than 2^64 calls.
- MmsgClient.ReportsAndFailure: fewer than 2^64 turns.
- `connect_to_server`, `my_socket.c`, `my_signal.c`, `set_cpu.c`, `logUtil.c`, `debug_print.c`, `udp-mmsg-trend/args.c`: thin wrappers or sample code.
