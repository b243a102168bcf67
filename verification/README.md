# Venti, modelled and verified in Dafny

Venti is a small network library for C++20. This project models its two intricate parts and proves what they are for.

**Addresses.** `inet_pton` walks a pointer over a C string, fills eight 16-bit slots, widens `::` with an overlapping
`memmove`, and re-enters itself for a dotted end; `inet_ntop` prints all groups, looks for the longest `[:0]` span in the
characters and splices `::` into its buffer. Both are methods over arrays, proved against descriptions on strings
(`Scan`, `Compress`), which in turn are proved against the grammar of section 3.2.2 of RFC 3986 (`Grammar`) and against
each other (`RoundTrip`). `Spelled` says the same in characters, digits and bytes, without those descriptions.
`ByteOrder` and `Addr` add the port and the `IPAddr` object around them.

**Completion.** A socket's slot holds at most one operation. A submission is attempted at once if the slot's flag says
the socket is ready; otherwise the edge-triggered notices of epoll finish it. Finished events go to a list, which a sweep
delivers while callbacks submit again. `Engine` says on values what each step does, `Epoll` has the objects that change
step by step and are proved to do just that, `Conservation`, `Sweeps`, `Wakeups` and `Loops` prove what holds over whole runs,
`Await` follows a result to `co_await`, and `Results` what is delivered over runs to the submission and the call
behind it. `Select` is the second engine, with two slots for each socket, `SelectRuns` its runs and `WinSelect` its object.
`Outcomes` and `SelectOutcomes` say of both engines, field by field and in the system's numbers, what each submission
and each report does.

## Assumptions

- What a system call returns, and what epoll_wait or select reports, is a parameter. It is arbitrary except where a
  contract says otherwise: `Wakeups.Honest` and `Wakeups.FullNotice` say what the kernel must not conceal of the socket in question.
- epoll_wait reports only slots that were set: for a fresh one the code would follow a null pointer.
- In conservation an error is reported only for an armed slot; that no wake-up is lost is claimed for sockets without
  errors and hang-ups.
- Callbacks are finite trees of further submissions, each on a socket of the same context.
- A `char` of a text is a byte; `isdigit` is '0' to '9'.

## Where the code is not what it seems

- `inet_ntop` elides exactly the run `Compress.LongestRun` describes. That is not the one section 4.2.3 of RFC 5952 asks
  for if the first of the longest runs is at the front and an equal one inside (`Compress.LeftmostIsChosen`,
  `RoundTrip.SecondRunElided`), and a single zero group inside is elided if there is no longer run, against section 4.2.2
  (`Compress.SingleIsElided`, `RoundTrip.SingleZeroElided`).
- A SENDTO that would block clears `rp` instead of `wp`, on submission and on a notice, and so can make a read on its
  socket wait for ever: `Wakeups.SendtoKeepsFlags` and `Wakeups.SendtoNoticeKeepsFlags` have the exact conditions,
  `Wakeups.SendtoLosesWakeup` a run.
- A finished TIMETICK or SIGNAL lowers `rp` whatever is left to read: `Wakeups.TickKeepsFlags`,
  `Wakeups.TickLosesWakeup`.
- A hang-up uses up the edge of a waiting read without finishing it: `Wakeups.HangupStrandsRead`,
  `Wakeups.HangupLosesWakeup`.
- An error reported for an idle slot delivers its last event again: `Conservation.ErrorOnlyWhenArmed`,
  `Conservation.LateErrorRepeats`.
- After `End` the loop asks the system once more, and never delivers what that finishes: `Sweeps.LoopLeaves`,
  `Sweeps.EndLeavesEvent`.
- A connection is waited for only if connect() says EWOULDBLOCK. EINPROGRESS, which Linux gives for TCP, is an error at
  once: `Results.ConnectWaits`.
- `Recv` and `Send` on Linux keep the length in a `size_t`, so a failing call yields -1 and never the errno:
  `Await.RecvHidesErrno`. The engine is modelled with the results it was written for, an arbitrary integer.
- `Accept` on Windows tests an unsigned socket for being negative, so it never fails: `SelectRuns.AcceptHidesErrors`. The
  engine is modelled with the results it was written for, too. With these an ACCEPT attempted on submission finishes
  there unless accept() succeeds, yet goes on waiting: `Select.AcceptSound`, `SelectRuns.BlockedAcceptRepeats`.
- A read or write that would block after select() reported the socket completes with 0: `SelectRuns.LengthYieldsResult`.
- A negative `l` counts as huge for IPv6 and fails for IPv4: `InetNtop.InetNtop`.
- `ToString` keeps the buffer's NULs between the text and the port, so `c_str()` does not show the port: `Addr.ShownText`.

## Model

| member | source | states |
|---|---|---|
| `InetPton.Hexval` | venti/ip/inet_pton.h:26-31 | the two wrapping range comparisons recognise exactly the hex digits of either case, and give their value |
| `InetPton.ReadDecimal` | venti/ip/inet_pton.h:40 | reads the longest run of at most three digits and its value, never past the NUL |
| `InetPton.ReadHex` | venti/ip/inet_pton.h:63 | the same for at most four hex digits, the value fitting 16 bits |
| `InetPton.ParseQuad` | venti/ip/inet_pton.h:38-47 | the pointer loop returns 1 exactly for the quads the description on strings accepts, stores those bytes and touches no others |
| `InetPton.TurnElision` | venti/ip/inet_pton.h:56-62 | one turn at the first `::` keeps the loop's invariant and moves on in the text |
| `InetPton.TurnGroup` | venti/ip/inet_pton.h:63-74 | one turn at a group keeps the invariant (the slot index stays at most 7), stops at the end or at a dotted end, or moves on |
| `InetPton.ReadGroups` | venti/ip/inet_pton.h:55-75 | the group loop ends, and its slots, its elision and its dotted end are those of the description, whatever the slots held before |
| `InetPton.WidenElision` | venti/ip/inet_pton.h:77-78 | the overlapping memmove and the zero fill put exactly 7 - i zeros before what stood from the elision on |
| `InetPton.StoreGroups` | venti/ip/inet_pton.h:80-83 | the sixteen bytes are the eight slots, high half first, and no other byte changes |
| `InetPton.FinishSlots` | venti/ip/inet_pton.h:76-83 | of the bytes that count, those stored are the groups with the elision widened, even when the slot of the dotted end was never assigned |
| `InetPton.ParseGroups` | venti/ip/inet_pton.h:53-85 | returns 1 exactly for the texts the description accepts, and stores its sixteen bytes, the dotted end as the last four |
| `InetPton.InetPton` | venti/ip/inet_pton.h:33-86 | returns 1 if and only if the text is an IPv4address or IPv6address of RFC 3986, then the bytes are what the text denotes; 0 otherwise; -1 and nothing written for another family; no byte outside the address changes |
| `Text.Memmove` | venti/ip/inet_pton.h:77 | overlapping ranges are moved as a whole, the rest stays |
| `Grammar.DecOctetCanonical` | venti/ip/inet_pton.h:41 | the grammar's dec-octet is exactly: one to three digits, no leading zero, at most 255 |
| `Grammar.GrammarIsForms` | venti/ip/inet_pton.h:53-75 | the nine alternatives of the ABNF describe exactly: eight groups, or at most seven around one `::`, a dotted end counting as two |
| `Scan.QuadSound` | venti/ip/inet_pton.h:38-47 | an accepted quad is four dec-octets with dots between, and the bytes are their values |
| `Scan.QuadComplete` | venti/ip/inet_pton.h:38-47 | every such quad is accepted with those bytes |
| `Scan.QuadExact` | venti/ip/inet_pton.h:38-47 | the quad loop accepts exactly IPv4address |
| `Scan.QuadMeaning` | venti/ip/inet_pton.h:40-42 | and gives the octets, however the text is read as one |
| `Scan.OpenSound` | venti/ip/inet_pton.h:55-75 | whatever the group loop accepts is a list of groups filling all slots, or groups, one `::` and a list |
| `Scan.ElidedSound` | venti/ip/inet_pton.h:63-74 | after the `::` only a nonempty list of groups, perhaps with a dotted end, is accepted |
| `Scan.FieldsComplete` | venti/ip/inet_pton.h:63-74 | every list of groups that fits the slots is accepted, with the groups' values in the slots |
| `Scan.ReachElision` | venti/ip/inet_pton.h:56-62 | groups before a `::` are consumed, and it takes one slot, provided a slot is left for what follows |
| `Scan.DoneMeaning` | venti/ip/inet_pton.h:76-84 | the slots with the elision widened are left groups, zeros, right groups, and the dotted end last |
| `Scan.ParseSound` | venti/ip/inet_pton.h:53-85 | every accepted text has a form in the grammar, and its bytes are that form's meaning |
| `Scan.ParseComplete` | venti/ip/inet_pton.h:53-85 | every form's text is accepted with that form's meaning |
| `Scan.ParseExact` | venti/ip/inet_pton.h:53-85 | a text is accepted if and only if it is an IPv6address |
| `Scan.ParseMeaning` | venti/ip/inet_pton.h:76-84 | and the bytes are what it denotes, however it is read as one |
| `Spelled.DigitsSpelled` | venti/ip/inet_pton.h:26-31 | the place of a character in "0123456789abcdef" or "0123456789ABCDEF" is its value, no other character is a hex digit, and what is printed is from the first row |
| `Spelled.ValueSpelled` | venti/ip/inet_pton.h:63 | one digit more multiplies the value by the base and adds the digit |
| `Spelled.CaseDoesNotMatter` | venti/ip/inet_pton.h:26-31 | for every text, with its hex digits put in lower case the same bytes are stored, or it is rejected just so |
| `Spelled.FormStored` | venti/ip/inet_pton.h:76-84 | every text of the grammar stores its groups, high byte first, in front of and behind the zeros, and its octets last, in their order |
| `Spelled.DigitsAreBytes` | venti/ip/inet_pton.h:80-83 | of eight groups of four digits, in either case, each pair of digits is a byte, in the order of the text |
| `Compress.ChoiceIsHeaviest` | venti/ip/inet_ntop.h:48-52 | no group's span is longer than the chosen one, and none before it as long |
| `Compress.ChoiceIsLongest` | venti/ip/inet_ntop.h:47-52 | if anything is chosen, a run is the chosen one if and only if it is whole and longest and, among equals, the first one inside, or at the front with none inside |
| `Compress.LeftmostIsChosen` | venti/ip/inet_ntop.h:48-52 | the first of the longest runs is chosen if and only if it is not at the front with an equal one inside |
| `Compress.SingleIsElided` | venti/ip/inet_ntop.h:48-53 | a single zero group is elided if and only if no run is longer and a single one stands inside |
| `Compress.NoChoice` | venti/ip/inet_ntop.h:47-53 | nothing is chosen if and only if there is no run of two zero groups and no single one inside |
| `Compress.SpanIsWeight` | venti/ip/inet_ntop.h:50 | what strspn counts is twice the number of zero groups, less one at the front, plus or minus the colons around them; without a zero group it counts at most 2 |
| `Compress.CutRun` | venti/ip/inet_ntop.h:53-56 | cutting that span out of the characters leaves exactly the groups before and after the run, none of them cut |
| `InetNtop.FindElision` | venti/ip/inet_ntop.h:48-52 | the character scan finds the place and length of the choice made on groups, and the text's end |
| `InetNtop.Splice` | venti/ip/inet_ntop.h:54-55 | the overlapping memmove leaves the text before the span, `::`, the text behind it and the NUL, inside the buffer |
| `InetNtop.Elide` | venti/ip/inet_ntop.h:47-56 | the buffer ends up holding the compression defined on groups |
| `InetNtop.CompressedIsCut` | venti/ip/inet_ntop.h:53-56 | the span found in the characters cuts the text to that compression |
| `InetNtop.PrintGroups` | venti/ip/inet_ntop.h:37-56 | the 100 characters hold the text of every address, mapped or not, and its NUL |
| `InetNtop.InetNtop` | venti/ip/inet_ntop.h:26-68 | succeeds if and only if the text is shorter than `l`, which for IPv6 is compared as unsigned; the caller's buffer then holds the text, a NUL, and what was there behind it; on failure IPv4 leaves the text cut to fit, IPv6 and other families nothing |
| `InetNtop.GroupTextsWellFormed` | venti/ip/inet_ntop.h:38-41 | "%x" prints every group as an h16 without leading zeros that stands for it, and the groups for the bytes |
| `InetNtop.OctetTextsWellFormed` | venti/ip/inet_ntop.h:34 | "%d" prints every octet as a dec-octet that stands for it |
| `InetNtop.FieldsLegible` | venti/ip/inet_ntop.h:37-46 | no printed field but "0" looks like zeros to the scan, and all of them together take at most 39 characters |
| `RoundTrip.PrintThenParse4` | venti/ip/inet_ntop.h:33-35 | every four bytes print as an IPv4address of at most 15 characters that denotes just them |
| `RoundTrip.ParseThenPrint4` | venti/ip/inet_pton.h:38-47 | every accepted IPv4 text is the one printed for its bytes |
| `RoundTrip.MappedChoice` | venti/ip/inet_ntop.h:42-52 | in an IPv4-mapped address exactly the five leading zero groups are elided, whatever the dotted end |
| `RoundTrip.PrintedIsAddress` | venti/ip/inet_ntop.h:36-60 | every sixteen bytes, IPv4-mapped or not, print as an IPv6address |
| `RoundTrip.PrintThenParse6` | venti/ip/inet_ntop.h:36-60 | and that text denotes just those bytes, however it is read |
| `RoundTrip.PrintThenScan6` | venti/ip/inet_pton.h:53-85 | and the parser turns it back into exactly those bytes |
| `RoundTrip.PrintIsInjective` | venti/ip/inet_ntop.h:36-60 | different addresses print differently |
| `RoundTrip.TextFits` | venti/ip/addr.h:64-70 | an IPv6 text has at most 39 characters, so it fits the 47 of ToString |
| `RoundTrip.TextIsPlain` | venti/ip/inet_ntop.h:36-60 | it consists of hex digits, dots and colons |
| `Spelled.NumeralSpelled` | venti/ip/inet_ntop.h:34-46 | a number is printed as its quotient by the base and then the digit of its remainder |
| `Spelled.Text4Spelled` | venti/ip/inet_ntop.h:34 | four bytes are printed in decimal, in their order, with dots between |
| `Spelled.DottedExactly` | venti/ip/inet_ntop.h:37-46 | for every sixteen bytes, the text has a dot if and only if bytes 0 to 9 are 0 and bytes 10 and 11 are 255 |
| `Spelled.MappedSpelled` | venti/ip/inet_ntop.h:42-56 | and then it is "::ffff:" and the last four bytes in decimal |
| `Spelled.Text6Spelled` | venti/ip/inet_ntop.h:36-60 | every other address is printed as its eight groups in hex with colons between, and "::" for the first zero run of the highest rank, twice its length and one more inside, if there is one above 2 |
| `Spelled.NoUpperCase` | venti/ip/inet_ntop.h:36-60 | nothing is printed in upper case |
| `RoundTrip.SecondRunElided` | venti/ip/inet_ntop.h:47-56 | the groups 0 0 1 0 0 1 1 1 print as "0:0:1::1:1:1" |
| `RoundTrip.SingleZeroElided` | venti/ip/inet_ntop.h:47-56 | the groups 1 0 1 1 1 1 1 1 print as "1::1:1:1:1:1:1" |
| `ByteOrder.Bswap16` | venti/ip/htons.h:20-22 | the two bytes change places, in int arithmetic truncated to 16 bits |
| `ByteOrder.Bswap32Reverses` | venti/ip/htons.h:24-26 | the four bytes come out in reverse order, and twice is the identity |
| `ByteOrder.Bswap64Reverses` | venti/ip/htons.h:28-30 | the halves change places, each reversed, and twice is the identity |
| `ByteOrder.PortRoundTrip` | venti/ip/addr.h:50 | a port comes back from the signed short it is stored in, modulo 2^16, on either endianness, and only port 0 is stored as 0 |
| `ByteOrder.NetworkOrder` | venti/ip/addr.h:50 | in memory the stored short is the high byte of the port and then the low one, on either endianness |
| `Addr.IPAddr.Zero` | venti/ip/addr.h:35-41 | the default address of a family is all zeros |
| `Addr.IPAddr.FromText` | venti/ip/addr.h:42-51 | an address made from a text of its family's grammar, up to its first NUL or, without one, all of it, holds what the text denotes, and the port in network order |
| `Addr.IPAddr.ToString` | venti/ip/addr.h:62-75 | the text, NULs up to 47 or 16 characters, and then the port if it is not 0 |
| `Addr.ShownText` | venti/ip/addr.h:62-75 | up to the first NUL the result is the text alone, without the port |
| `Addr.PortShown` | venti/ip/addr.h:71-73 | a port given to the constructor is shown behind ":" in decimal, modulo 2^16, unless it is 0 |
| `Addr.Reread` | venti/ip/addr.h:42-75 | an address made from the result of ToString has the same bytes |
| `Conservation.InitiallyConserved` | venti/context.h:28-34 | a new context conserves, having nothing |
| `Conservation.SubmitConserves` | venti/platform/linux/epollimpl.h:23-162 | no submission of any kind, on an idle slot or an armed one, puts an event in two places or in none |
| `Conservation.ReportFinishesOne` | venti/platform/linux/epollimpl.h:172-302 | one report finishes at most one event, the one armed in its slot, and then the slot is idle |
| `Conservation.ReportConserves` | venti/platform/linux/epollimpl.h:164-305 | no report does either, if errors come for armed slots only |
| `Conservation.ErrorOnlyWhenArmed` | venti/platform/linux/epollimpl.h:172-176 | a report conserves if and only if it is not an error for an idle slot |
| `Conservation.LateErrorRepeats` | venti/platform/linux/epollimpl.h:172-176 | a run after which an error makes a read finish twice |
| `Conservation.ExactlyOnePlace` | venti/context.h:36-58 | each submitted event is in exactly one of: an armed slot, the list, the delivered ones, those whose slot was taken over; and just once in the list and among the delivered |
| `Conservation.RunConserves` | venti/context.h:46-58 | over every run of submissions, reports and deliveries events are conserved |
| `Conservation.PatientLosesNothing` | venti/platform/linux/epollimpl.h:23-162 | with submissions on idle slots only, no event is lost over any run |
| `Conservation.FirstFinishedFirst` | venti/context.h:36-58 | over every run events are delivered in the order in which they finished, unchanged |
| `Sweeps.ActsDespite` | venti/context.h:48-51 | what a callback submits does not depend on its own event still being in the list |
| `Sweeps.SweepIsRun` | venti/context.h:48-55 | a sweep with all its callbacks is one of the runs above |
| `Sweeps.SweepDeliversAll` | venti/context.h:48-55 | a sweep ends with the list empty, conserves events, and has delivered, in order, everything that had finished |
| `Sweeps.Rounds` | venti/context.h:48-55 | a sweep goes breadth first: a round delivers what waited, in order, and leaves exactly the state all its callbacks together lead to, what they made finish waiting next; the sweep goes on from there |
| `Sweeps.LoopConserves` | venti/context.h:46-58 | the whole loop conserves events, whatever callbacks submit and the system reports |
| `Sweeps.LoopLeaves` | venti/context.h:46-58 | the loop leaves with everything delivered but what the one wait after the last sweep finished, which is exactly what that wait disarmed |
| `Sweeps.EndLeavesEvent` | venti/context.h:44-57 | a loop that ends with a finished read undelivered |
| `Sweeps.InputFinishes` | venti/platform/linux/epollimpl.h:185-253 | input for a slot armed for input queues exactly its event, with its callback, and leaves the slot idle |
| `Sweeps.AtMostOneEach` | venti/platform/linux/epollimpl.h:168-302 | input and output together never queue two events for a slot, and none for an idle one |
| `Engine.FireShrinks` | venti/context.h:48-51 | a delivery uses up more of the callbacks' trees than it adds, so sweeps end |
| `Wakeups.MoveAndSides` | venti/platform/linux/epollimpl.h:23-302 | for each socket: every step of engine and kernel keeps the output side in order (`wp` is down only without room or with an edge to come, and what waits for output on a writable socket has one to come); the same for the input side and `rp` if and only if the step meets the condition of `KeptIn`, which only SENDTO, TIMETICK and SIGNAL can miss |
| `Wakeups.RunStaysAwake` | venti/platform/linux/epollimpl.h:23-302 | so does every run, whatever happens on the other sockets |
| `Wakeups.AlwaysAwake` | venti/platform/linux/epollimpl.h:23-302 | over a run the input side is in order at every point if and only if every step met its condition |
| `Wakeups.NoLostWakeup` | venti/platform/linux/epollimpl.h:23-302 | in every reachable state an armed WRITE, SENDTO or CONNECT on a writable socket has an edge pending, and so has an armed READ, ACCEPT, RECVFROM, TIMETICK or SIGNAL on a readable one if every step met its condition; the other sockets may do anything |
| `Wakeups.PlainIsKept` | venti/platform/linux/epollimpl.h:23-302 | on a socket without SENDTO, TIMETICK and SIGNAL every step meets it |
| `Wakeups.EdgeFinishes` | venti/platform/linux/epollimpl.h:184-302 | the notice of that edge finishes the operation, and only it, with its attempt's result |
| `Wakeups.SendtoKeepsFlags` | venti/platform/linux/epollimpl.h:131-150 | a submitted SENDTO keeps the flags true if and only if it is not attempted, does not block, or nothing is readable without an edge |
| `Wakeups.SendtoNoticeKeepsFlags` | venti/platform/linux/epollimpl.h:278-290 | a notice for a waiting SENDTO keeps them true if and only if it does not block or nothing is readable |
| `Wakeups.SendtoLosesWakeup` | venti/platform/linux/epollimpl.h:136-137 | a run after which a read waits on a readable socket with no edge to come |
| `Wakeups.HangupStrandsRead` | venti/platform/linux/epollimpl.h:177-183 | after a notice a waiting read on a readable socket still waits if and only if it included a hang-up and no error |
| `Wakeups.HangupLosesWakeup` | venti/platform/linux/epollimpl.h:177-183 | a run after which that happens |
| `Wakeups.HangupKeepsFlags` | venti/platform/linux/epollimpl.h:172-183 | after a hang-up or an error the flags are true if and only if they were up before for all the socket is ready for |
| `Wakeups.TickKeepsFlags` | venti/platform/linux/epollimpl.h:229-246 | after a tick or a signal the flags are true if and only if nothing is readable any more |
| `Wakeups.TickLosesWakeup` | venti/platform/linux/epollimpl.h:229-235 | a run after which a timer waits, though it is readable, with no edge to come |
| `Outcomes.DownWaits` | venti/platform/linux/epollimpl.h:23-162 | with its flag down an operation is not attempted: whatever a call would return, the list stays as it was and the submission waits in its slot |
| `Outcomes.FreshWaits` | venti/platform/linux/linuxsock.h:65-81 | on a new socket everything but a connection waits |
| `Outcomes.UpAttempts` | venti/platform/linux/epollimpl.h:23-150 | with its flag up, and for a connection always, it finishes if and only if the result is not -11, with the length, the errno or 0; else it waits with the flag down |
| `Outcomes.ErrorTold` | venti/platform/linux/epollimpl.h:172-176 | an error goes first and is told with its number |
| `Outcomes.HangupTold` | venti/platform/linux/epollimpl.h:177-183 | a hang-up fails a waiting connection, and nothing else, with error 144 |
| `Outcomes.InputTold` | venti/platform/linux/epollimpl.h:185-253 | input raises `rp` and finishes what waits for it, with the length, the errno, the signal or 0; tick and signal lower it |
| `Outcomes.OutputTold` | venti/platform/linux/epollimpl.h:254-301 | output raises `wp` and finishes a connection, and a write unless it would block |
| `Outcomes.InputBeforeOutput` | venti/platform/linux/epollimpl.h:185-302 | both at once are input and then output |
| `Outcomes.WaitInOrder` | venti/platform/linux/epollimpl.h:168-304 | reports are taken one after the other, in their order |
| `Outcomes.ActionsAreSubmissions` | venti/context.h:44-50 | a callback's actions are submissions and the end of the loop |
| `Outcomes.LoopTurn` | venti/context.h:46-57 | one turn of the loop is a sweep and then a wait, unless the end has been asked for |
| `Outcomes.RunWaitsDown` | venti/platform/linux/epollimpl.h:23-302 | over every run, what waits for reading waits with `rp` down, and a WRITE with `wp` down: nothing waits that could have been attempted, except SENDTO |
| `Loops.LoopIsMoves` | venti/context.h:46-58 | the whole loop, its callbacks and what the system reports are such steps |
| `Loops.LoopLosesNoWakeup` | venti/context.h:46-58 | so at every point of the loop, the kernel acting in between as it likes, what is armed on a ready socket has an edge pending; and after all of it the engine is in the state `Epoll.Runtime.Run` ends in |
| `Epoll.SockEventData.Set` | venti/platform/linux/linuxsock.h:83-107 | the slot takes a type and an event, its flags stay |
| `Epoll.SockEventData.Clear` | venti/platform/linux/linuxsock.h:108 | only the type goes, the event stays |
| `Epoll.Context.SubmitComplete` | venti/context.h:36-42 | appends the event, a waiting one as completed |
| `Epoll.Poller.SubmitRead` | venti/platform/linux/epollimpl.h:23-41 | slot and list become what the description says, nothing else changes |
| `Epoll.Poller.SubmitWrite` | venti/platform/linux/epollimpl.h:45-63 | the same for WRITE |
| `Epoll.Poller.SubmitConnect` | venti/platform/linux/epollimpl.h:67-81 | the same for CONNECT |
| `Epoll.Poller.SubmitAccept` | venti/platform/linux/epollimpl.h:83-100 | the same for ACCEPT |
| `Epoll.Poller.SubmitRecvfrom` | venti/platform/linux/epollimpl.h:106-125 | the same for RECVFROM |
| `Epoll.Poller.SubmitSendto` | venti/platform/linux/epollimpl.h:131-150 | the same for SENDTO, which clears `rp` |
| `Epoll.Poller.SubmitTimer` | venti/platform/linux/epollimpl.h:156-158 | a timer is armed without an attempt |
| `Epoll.Poller.SubmitSignal` | venti/platform/linux/epollimpl.h:160-162 | and so is a signal |
| `Epoll.Poller.OnInput` | venti/platform/linux/epollimpl.h:185-253 | what input does to a slot of each type |
| `Epoll.Poller.OnOutput` | venti/platform/linux/epollimpl.h:254-301 | what output does to a slot of each type |
| `Epoll.Poller.OnEvent` | venti/platform/linux/epollimpl.h:172-302 | error before hang-up before input and output |
| `Epoll.Runtime.Submit` | venti/platform/linux/epollimpl.h:23-162 | over all sockets, one submission changes the state as described, other sockets' slots not at all |
| `Epoll.Runtime.Wait` | venti/platform/linux/epollimpl.h:164-305 | the loop over the reported events is the description's, for any reports of sockets that were set |
| `Epoll.Runtime.CompleteAndErase` | venti/context.h:50-51 | a callback that submits to any slot runs before its event is erased, and erases just that event |
| `Epoll.Runtime.Sweep` | venti/context.h:48-55 | the pass with its iterator ends, never skips an event, and is the description's sweep |
| `Epoll.Runtime.Run` | venti/context.h:46-58 | the loop is the description's, until End or until Wait blocks for ever, and conserves events if errors come for armed slots only |
| `Await.ReadYieldsResult` | venti/platform/linux/epollimpl.h:23-41 | a read finished on input yields exactly the call's result to co_await; finished at once it is the same event if and only if the result is not "would block" |
| `Await.WriteYieldsResult` | venti/platform/linux/epollimpl.h:45-63 | a write yields the result at once and later alike, and waits on while it would block |
| `Results.DeliveredToItsCallback` | venti/context.h:48-51 | over every run, what is delivered has the callback it was submitted with |
| `Results.EveryFinishDecided` | venti/platform/linux/epollimpl.h:23-302 | every event that finishes over a run does so in one of its steps, as the one submitted or found armed there, with the outcome of the call made there |
| `Results.DeliveredYieldsResult` | venti/socket/tcpsocket.h:57-123 | over every run each delivered event is the one submitted or found armed in one of the steps, finished with the outcome of the call made there, and its callback is told that result: a length or negative errno to co_await, or an errno |
| `Results.ConnectWaits` | venti/platform/linux/epollimpl.h:67-81 | a connection is armed if and only if connect() says it would block; EINPROGRESS fails it at once |
| `Results.ConnectionLearns` | venti/platform/linux/epollimpl.h:67-81 | over every run, the same of each connection delivered |
| `Await.ForcedIsAwaited` | venti/socket/tcpsocket.h:57-123 | negated for the event, wrapped to -1 and the code, and negated again, every result comes back |
| `Await.ReadAwait.OnComplete` | venti/event.h:44 | Complete stores what co_await yields, and then resumes |
| `Await.ConnAwait.OnComplete` | venti/socket/tcpsocket.h:83-181 | Complete stores the error that co_await yields for a connection, and then resumes |
| `Outcomes.LengthLearnt` | venti/socket/tcpsocket.h:57-123 | for every int but the least a read or write yields exactly its length or negative errno; with an error the closure passes on the greatest size_t |
| `Outcomes.ConnectLearns` | venti/platform/linux/epollimpl.h:67-81 | a connection submitted and then reported once yields 0 if and only if connect() succeeded, or waited and output came without error and hang-up |
| `Await.RecvHidesErrno` | venti/platform/linux/linuxsock.h:275-295 | through size_t a failing call yields -1 for every errno; that is the negative errno if and only if the call succeeds or the errno is 1 |
| `Select.SubmitSound` | venti/platform/win/wineventimpl.h:20-101 | every submission but ACCEPT conserves the events of both directions of every socket, and loses none on a direction not activated |
| `Select.AcceptSound` | venti/platform/win/wineventimpl.h:103-120 | with the results meant, an ACCEPT does so if and only if it is not attempted or its attempt succeeds |
| `SelectRuns.AcceptHidesErrors` | venti/platform/win/winsock.h:228-254 | as written `Accept` succeeds whatever accept() returns, so every ACCEPT conserves, and none is told an error |
| `SelectRuns.BlockedAcceptRepeats` | venti/platform/win/wineventimpl.h:103-120 | with the results meant, a run after which an ACCEPT that would block breaks conservation |
| `Select.WaitSound` | venti/platform/win/wineventimpl.h:211-313 | the loop over the map conserves events, finishes every direction select() reported, skips none and leaves all others |
| `SelectRuns.SelectRunConserves` | venti/platform/win/wineventimpl.h:20-315 | over every run of submissions, waits and deliveries, too, ACCEPT included where it conserves; with submissions on idle directions nothing is lost |
| `SelectRuns.EveryTurnDecided` | venti/platform/win/wineventimpl.h:20-315 | every event that finishes over a run is the one submitted or reported in one of its turns, and its callback is told the result of the call made then |
| `SelectRuns.LengthYieldsResult` | venti/platform/win/wineventimpl.h:216-242 | what a read or write yields after select(), and that an attempt on submission finishes alike if and only if it neither blocks nor moves nothing |
| `SelectOutcomes.ReadSubmitted` | venti/platform/win/wineventimpl.h:20-50 | a read is attempted exactly if `processing` is up; then it waits if it would block (10035), which lowers it, or moved nothing, and else finishes with its length or error |
| `SelectOutcomes.WriteSubmitted` | venti/platform/win/wineventimpl.h:52-82 | a write likewise, in its own direction |
| `SelectOutcomes.ConnectSubmitted` | venti/platform/win/wineventimpl.h:84-97 | a connection waits only if it would block |
| `SelectOutcomes.AcceptSubmitted` | venti/platform/win/wineventimpl.h:103-120 | an attempted accept that fails finishes, waits on, and deactivates the other direction; its error is negated |
| `SelectOutcomes.EntryAndList` | venti/platform/win/winevent.h:112-124 | a submission appends what it finished and changes its own entry only |
| `SelectOutcomes.ReadReady` | venti/platform/win/wineventimpl.h:216-242 | a read let through always finishes, and leaves `processing` up unless it would have blocked |
| `SelectOutcomes.WriteReady` | venti/platform/win/wineventimpl.h:261-294 | so does a write |
| `SelectOutcomes.AcceptReady` | venti/platform/win/wineventimpl.h:243-254 | an accept is told its error, would-block counting as accepted |
| `SelectOutcomes.ConnectReady` | venti/platform/win/wineventimpl.h:295-306 | a connection is completed if connect() says 10056, and else told what it says, 0 included |
| `SelectOutcomes.InputFirst` | venti/platform/win/wineventimpl.h:212-312 | a socket in both sets is taken for input first |
| `SelectOutcomes.SocketsInOrder` | venti/platform/win/wineventimpl.h:211-313 | sockets are taken in ascending order |
| `WinSelect.WinSockSelect.SubmitEvent` | venti/platform/win/winevent.h:81-124 | the socket's entry, fresh if there was none, has the direction of the type set and activated |
| `WinSelect.WinSockSelect.SubmitReadKind` | venti/platform/win/wineventimpl.h:20-36 | READ, and RECVFROM likewise, do to the map and the list what the description says |
| `WinSelect.WinSockSelect.SubmitWriteKind` | venti/platform/win/wineventimpl.h:52-68 | WRITE and SENDTO likewise |
| `WinSelect.WinSockSelect.SubmitConnection` | venti/platform/win/wineventimpl.h:84-97 | only a connection under way enters the map |
| `WinSelect.WinSockSelect.SubmitAcceptance` | venti/platform/win/wineventimpl.h:103-120 | the immediate path switches off `wactivated` |
| `WinSelect.WinSockSelect.InitSet` | venti/platform/win/winevent.h:152-169 | the sets are exactly the activated directions, and no socket is above the bound returned |
| `WinSelect.WinSockSelect.OnReadable` | venti/platform/win/wineventimpl.h:212-260 | what readiness for input does to an entry of each type |
| `WinSelect.WinSockSelect.OnWriteable` | venti/platform/win/wineventimpl.h:261-311 | what readiness for output does |
| `WinSelect.WinSockSelect.Wait` | venti/platform/win/wineventimpl.h:204-315 | a failing select() changes nothing; otherwise, for subsets of the sets, events are conserved and exactly the reported directions are deactivated |

## Left out

- Buffers and what moves through them: only lengths and error numbers are modelled.
- The socket, epoll, timerfd, signalfd and Winsock calls themselves, and the removal of a signal descriptor from epoll.
- The completion-port engine (WinIocp): almost all foreign calls.
- Coroutine frames (`Future`, promises): a callback is the tree of what it submits, and awaiting is the value stored.
- Threads, the lock in `SubmitComplete`, the Windows timer thread and Windows signals: one thread is modelled.
- `RegSock` and `CloseSock` of either engine: a socket's slot appears with its first submission and stays.
- At most 128 events for each epoll_wait: any number is allowed.
- UDP sockets, acceptors, timers and signals as classes, the resolver, DNS packets and `Stream`: wrappers that repeat these patterns.
- The 32-bit range of `int` in results and lengths of the engines (only `Await` has it): values are carried unchanged.
- `errno` after the address functions; copying an `IPAddr`.
- InetPton.InetPton: does not say which bytes a rejected text leaves in the address, because callers must not use them.
- Wakeups.NoLostWakeup: does not cover errors and hang-ups on the socket itself, because the code does not act on them for every operation; what they leave is stated exactly beside it.
- Epoll.SockEventData.Set: does not set buffers and the data pointer, because what moves through them is not modelled.
- Epoll.Poller.OnInput: does not remove a signal's descriptor from epoll, because no call to the system is modelled; the signal number is a parameter.
- Epoll.Runtime.Run: stops where the real loop stays blocked in its wait for ever.
- WinSelect.WinSockSelect.Wait: takes the results of the calls it makes as given beforehand, and visits sockets in ascending order as the map does.
