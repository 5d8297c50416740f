# A verified model of the sqex chat client

`sqex-chat` is a client for an end-to-end encrypted chat and feed protocol whose server, the
exchange, is not trusted. It keeps durable state against an exchange that may lose replies, replay
entries, prune its log, change origin or answer anything at all. This project models the parts of the
client where that is hard, together with the rules of the exchange they lean on, and proves what they
keep over every run.

`dafny verify dfyconfig.toml` checks everything.

## What is modelled

| module | part of the system |
|---|---|
| `ChainAgreement`, `AgreedChannel`, `ArrivalOrder`, `KeyCollection`, `FollowingCommits`, `WelcomeProtocol` | SIP-87 agreed channel keys: the chain, arrivals of commits and commit secrets in any order, telling envelopes apart before they are opened, and the whole protocol around a joining device |
| `SigningChain` | the SIP-31 signing chain and the SIP-17 message counter, with lost and late replies, restarts and a lost store |
| `LogEntries`, `SignedWords`, `Receipts` | SIP-31 verdicts and SIP-34 receipts, and what each says of the entry it is given for |
| `LogFold`, `TimedMessages`, `ToldStandings`, `StoppedFold` | the fold that drives both and decides what is opened, kept and shown; SIP-57 timed messages; and the same fold stopped or fed a forged entry |
| `ForkPosts` | SIP-53 posting again after a fork |
| `PrekeyPool`, `PrekeySupply`, `PrekeyExchange`, `PrekeyStore` | the SIP-23 prekey pool: its rows and what a call does to them, whether it leaves enough, the same with the exchange and the network in sight, and the call in place |
| `FeedPosts`, `FeedPublishing`, `TombstoneWalk` | SIP-88 feeds: racing publishers, and whose act a tombstone was |
| `Wrappers`, `Sets`, `BigEndian`, `BackupSegments`, `BackupLists`, `Base64` | SIP-48 backup segments, and base64 as in section 4 of RFC 4648 |
| `TerminalScreen`, `TerminalFeed`, `TerminalMeaning` | the terminal emulator of the test harness, with control sequences as in section 5.4 of ECMA-48 and their meaning as in section 8.3 |

Code that updates fields or works through a loop is a class or a method with a loop
(`KeyStore`, `SigningStore`, `ChainBook`, `ChannelRows`, `ForkStore`, `PoolStore`, `Screen`, `Reader`,
`StandingUnderKeys`, `PublishFrom`, `WhoTookItOff`, the segment readers and writers), each proved equal
to a function of what it was given; the theorems are about those functions. Protocols are state
machines: every step that changes anything is a predicate, and the results are stated for every run.

Cryptography is symbolic. A hash is a term that contains what was hashed, a signature is a term naming
its key and what it was made over, and a sealed body opens under exactly the key, device, epoch and
counter it was sealed for. Replies, clocks and random draws are parameters. Where a ghost field
called `disk` or `trace` appears, it lists the durable states passed through, one per write, with what else
matters at that moment, so that a statement about all of it is a statement about every point the process may stop at. Every lemma turns automatic
induction off, so the proof of each is the one written in its body.

## Where the code does not do what is expected of it

Each of these is kept as the code has it, shown by a concrete family of inputs, and completed with the
condition under which the expected property does hold.

- **Two commits that fit one place** (`AmbiguousCommitsDiverge`) can take two orders of arrival to two chains.
  Every order of the same arrivals ends alike if and only if, at each chain the device comes to with all of them in
  hand, the commits that fit the secret held are one commit (`OrderMattersExactly`). Commits that differ at
  one place do no harm where no secret for their epoch is held, or where the chain does not come there.
- **A `Welcome` at epoch 1** (`WelcomeAtFirstEpochIsMisread`) would be stored as an admin-minted key. It
  is what the empty first commit of `create_agreed_group` prevents (`NothingIsMisread`).
- **Going back an epoch** (`GoingBackRepeats`) repeats a counter, exactly where the report is also behind
  (`CounterRepeatsExactly`).
- **A member's sealed entry relabelled as the exchange's own** (`RelabelledIsOpenedTwice`) passes the
  replay check and is decrypted a second time. With system entries unsealed nothing is (`NothingIsOpenedTwice`);
  `OpensAgainExactly` says of one entry when it is.
- **A hash altered beside an unaltered body** (`AlteredHashAccuses`). A verdict looks at the body served and links by
  the hash served, so an entry with its hash altered is `Valid` and the honest one after it is a `Fork`, which is
  evidence against its device. The link is the signed one if and only if the hash is the body's (`LinkIsSignedExactly`).
- **Equal heads at different positions** (`HeadAloneIsNotEnough`) do not mean one log. Two runs that end at one head
  agree at the numbers both hold if and only if they end at one position (`SameLogExactly`, `SameHeadSameLog`).
- **A message whose counter was recorded and which was not kept is lost** (`StoppedIsLost`). `record_seen` is written
  before `put_message`; stopped in between, the entry is passed over by every later fold. `StopsSafelyExactly` says
  when the fold of an entry can be stopped anywhere.
- **A timed message can outlive its time** (`StoppedOutlivesItsTime`). Its row is written before its timer; stopped in
  between, no later fold writes the timer and no expiry removes the message. With both written it goes if and only
  if its time has come (`GoesInTimeExactly`).
- **A forged entry takes its counter with it** (`SpoiltCopySuppresses`). The counter is recorded before the verdict, so
  a copy with its signature spoilt, served first, keeps the genuine message out of every later fold.
  It does so if and only if the forged entry could be read (`ForgedSuppressesExactly`).
- **Stranded posts are dropped** where 256 of the channel's have higher numbers, and where one is already stored under
  the same exchange and number. `ForkStore.ForkFound` proves that nothing is lost if and only if everything fits (`Fits`).
- **Posting one again drops its namesakes.** Rows are kept by exchange and number and dropped by number, so another
  exchange's post at that number goes unsaid; none does if and only if the post is alone at it (`DroppingIsSafeExactly`).
- **A second secret for an epoch is opened and lost** (`SecondSecretIsLost`, `WrongSecretBlocks`). Only the
  epoch key is looked at before an envelope is opened, and a secret held is never replaced, so the prekey is spent and the
  content dropped, even where it is the one the chain waits for. `SecretIsUsedExactly` says when a secret is put to use.
- **A `Welcome` half kept** (`WelcomeStoppedHalfway`). Its chain is written before its keys; stopped in between, the
  envelope is left for good and the admitted epoch's key is never held. A commit secret's writes can be stopped anywhere.
- **A lost acknowledgement of a publish** (`LostAcknowledgement`) is followed by an offer of the same ids,
  which the exchange refuses as reused, and the client then discards secrets the exchange is serving; ids
  minted after that can be refused for good (`RefusedForGood`).
- **A pool wiped for a refusal is not taken for an empty one** (`WipedWhileServed`), since its fallback stays. While the
  exchange serves more than 64 of its prekeys, which nobody can answer any more, every later call is refused. An honest
  exchange refuses a call if and only if an id was used before or it would hold more than it keeps (`RefusedExactly`).
- **Rows that have run away are wiped while a publish is on its way** (`RunawayLosesWaiting`). `Clear` says that
  nothing is served, not that nothing will be: a batch whose acknowledgement was lost can arrive after the wipe.
  Whatever is answered in truth, every moment of a call is safe if and only if nothing was waiting when it
  began (`DiscardIsSafeExactly`); where nothing is refused, if and only if the rows have not run away or nothing
  was waiting in them (`CrashSafeExactly`). The client can check either before it calls.
- **An exchanged body is believed** (`ExchangedBodyIsBelieved`). `page_of` checks a post's signature but
  not that its body is the one signed, nor that it is of the account asked for, so an exchange can make the walk say
  `Withdrawn` with any verifying post. With both checked, `Withdrawn` is something signed for (`WithdrawnIsSigned`).
- **A frame of four gibibytes or more** (`LongMessageIsLost`) is never read back; its length keeps its low four bytes.
- **An operating system command ended by ST with a BEL later on** (`BellAfterTerminator`) makes the
  screen depend on where a read ends. `SteadyExactly` says when it does not.
- **Choosing a character set** (`CharacterSetIsDrawn`). Of the three characters of such an escape two are dropped and the
  last is drawn, where the comment beside the code counts it among those of two.
- **Erasing upwards from below the screen** (`ErasingFromBelowRaises`, `ErasingFromBelowStops`) raises `IndexError`;
  `CsiRaisesExactly` says when a control sequence raises.

## Model

| member | source | states |
|---|---|---|
| ChainAgreement.Advance | crates/sqex-proto/src/agreement.rs:410-434 | a commit is taken if and only if it is for the next epoch, over the held transcript, with the contribution of the secret, and which refusal is given; the chain then moves one epoch and the key is that chain's |
| ChainAgreement.ReadWelcome | crates/sqex-proto/src/agreement.rs:480-507 | a `Welcome` that is accepted ends at its commit's epoch, and its last key is the one its chain derives |
| ChainAgreement.WelcomeRoundTrip | crates/sqex-proto/src/agreement.rs:453-507 | reading undoes writing a `Welcome`, for any amount of history |
| ChainAgreement.CommitsExactlyWhenCurrent | crates/sqex-chat/src/client.rs:4959-4978 | a device can derive the epoch it is about to commit exactly when its chain stands at the exchange's |
| ChainAgreement.HistoryExists | crates/sqex-proto/src/agreement.rs:410-434 | any sequence of commits has one history of chains from a creator's chain, and no other |
| ChainAgreement.WaysAgree | crates/sqex-chat/src/client.rs:4959-5076 | committing, deriving from a commit secret and entering by `Welcome`, in any mixture over any history, leave a device with nothing but the channel's own chain and keys, and current where it met the newest commit |
| ChainAgreement.DevicesAgree | crates/sqex-chat/src/client.rs:7456-7475 | two devices hold one chain, transcript and key at every epoch both reached |
| ChainAgreement.OneKeyOneHistory | crates/sqex-proto/src/agreement.rs:410-434 | members who hold one epoch key came to it by the same chains and the same commits, from the first: who made each, whom it added and removed, and its secret |
| ChainAgreement.WrongChainIsRefused | crates/sqex-proto/src/agreement.rs:480-507 | a `Welcome` that ends in the true key is accepted if and only if it starts with the true chain |
| AgreedChannel.FirstFitExactly | crates/sqex-chat/src/client.rs:7456-7475 | the search over held commits finds one exactly where one takes the chain on |
| AgreedChannel.CatchUpIsLongestRun | crates/sqex-chat/src/client.rs:7428-7497 | the catch-up loop ends at the longest unbroken run of epochs with both halves held, and holds the key of each |
| AgreedChannel.ArrivalsSettle | crates/sqex-chat/src/client.rs:7428-7497 | where there is one way on, after any arrivals, step by step, the device stands where all of them together put it |
| AgreedChannel.ArrivalOrderDoesNotMatter | crates/sqex-chat/src/client.rs:7392-7398 | where there is one way on, the same commits and secrets in any two orders, repeated or not, leave the same chain, keys and waiting secrets |
| AgreedChannel.UnambiguousIsOneWay | crates/sqex-chat/src/client.rs:7456-7475 | there is one way on wherever no two different held commits share epoch, transcript and contribution |
| ArrivalOrder.OrderMattersExactly | crates/sqex-chat/src/client.rs:7456-7475 | every order of the same arrivals ends alike if and only if there is one way on: at each chain the device comes to, the commits that fit the secret held are one commit |
| ArrivalOrder.TwoFitDiverges | crates/sqex-chat/src/client.rs:7456-7475 | where two fit at any chain come to, holding back the one that would be taken until the chain has passed ends on another chain |
| ArrivalOrder.ArrivalsDescend | crates/sqex-proto/src/agreement.rs:410-434 | after any arrivals the transcript can be read back to the one before them: nothing takes a device off the way it has come |
| AgreedChannel.SecretsAboveSurvive | crates/sqex-chat/src/store.rs:2129-2192 | where there is one way on, a commit secret is kept exactly until the chain has passed its epoch |
| AgreedChannel.DerivingLaterIsTheSame | crates/sqex-chat/src/client.rs:7407-7419 | where there is one way on, rows noted and not yet derived from, in any order and derived from at any moments, end the same once the device derives |
| AgreedChannel.ChainRecords | crates/sqex-chat/src/client.rs:7456-7475 | a chain that has passed an epoch can be read back to the commit secret it passed it with |
| AgreedChannel.StoppedWhileDeriving | crates/sqex-chat/src/client.rs:7461-7463 | stopped after the key, the chain or the spent secret is written, deriving again ends where it would have |
| AgreedChannel.AmbiguousCommitsDiverge | crates/sqex-chat/src/client.rs:7456-7475 | two commits that fit where the device starts take two orders of arrival to two chains |
| KeyCollection.AdminReadingExactly | crates/sqex-chat/src/client.rs:3141-3206 | an envelope is taken for an admin-minted key exactly where there is no sign of agreement, the log is read to its end and the key is not held |
| KeyCollection.WelcomeIsTaken | crates/sqex-chat/src/client.rs:3160-3206 | a device with no chain that has read the commit admitting it takes its `Welcome` |
| KeyCollection.KeepKeeps | crates/sqex-chat/src/client.rs:3249-3288 | what opened content does to the store, value by value: no key held is replaced, each new one is put where none was, a `Welcome`'s chain is taken, and a commit secret is put to use if and only if its slot is vacant and its epoch not reached |
| KeyCollection.SecretIsUsedExactly | crates/sqex-chat/src/store.rs:2129-2145 | a commit secret opened waits at its epoch, or derives it, exactly where no other is held for the epoch and the chain is below it |
| KeyCollection.SecondSecretIsLost | crates/sqex-chat/src/client.rs:3194-3208 | a second secret for an epoch is opened, its prekey spent, and its content is nowhere |
| KeyCollection.WrongSecretBlocks | crates/sqex-chat/src/client.rs:3273-3280 | with a wrong secret held, the right one leaves the chain it would have moved where it is |
| KeyCollection.WelcomeStoppedHalfway | crates/sqex-chat/src/client.rs:3253-3267 | stopped after any number of a `Welcome`'s writes the envelope is left for good; the device ends where it would have exactly where it held the missing keys already |
| KeyCollection.AbsorbKeepsKeys | crates/sqex-chat/src/client.rs:3118-3304 | over a whole collection no epoch key held goes or changes |
| KeyCollection.KeyStore.NoteCommits | crates/sqex-chat/src/client.rs:7407-7419 | every commit of a page is noted at its place, and nothing else is |
| KeyCollection.KeyStore.TryCommits | crates/sqex-chat/src/client.rs:7456-7475 | the loop over held commits gives the first that fits |
| KeyCollection.KeyStore.DeriveEpochs | crates/sqex-chat/src/client.rs:7428-7497 | the loop in place is the catch-up proved longest, and deriving again from any state it writes ends at the same place |
| KeyCollection.KeyStore.KeepOpened | crates/sqex-chat/src/client.rs:3249-3288 | the writes of one opened envelope add up to what is specified, and a commit secret's can be stopped anywhere |
| KeyCollection.KeyStore.AbsorbKeys | crates/sqex-chat/src/client.rs:3118-3304 | the loop is the collection specified, and the pool without the secrets used is written last |
| KeyCollection.AbsorbSpends | crates/sqex-chat/src/client.rs:3208-3214 | a collection spends one-time secrets its envelopes named and does nothing else to the pool |
| KeyCollection.CollectingIsAMove | crates/sqex-chat/src/client.rs:3293-3294 | saving the pool after a collection of envelopes sealed under prekeys that were served leaves everything still served answerable |
| FollowingCommits.ReadingExactly | crates/sqex-chat/src/client.rs:3141-3206 | each reading as an if-and-only-if over what has been read and is held: a commit secret where a commit for the epoch is read, none admits the account and the key is not held, whatever chain is held; a `Welcome` where one admits it and the chain is below |
| FollowingCommits.KeptOnlyIfAttested | crates/sqex-chat/src/client.rs:3208-3248 | nothing is kept of an envelope unless its prekey is usable, its publisher is attested and it opens; its one-time secret goes wherever it was to be read |
| FollowingCommits.SecretMovesTheChain | crates/sqex-chat/src/client.rs:3273-3282 | with the commit read, its secret opened moves the chain at least to its epoch, and the key is held |
| FollowingCommits.MemberFollows | crates/sqex-chat/src/client.rs:3273-3282 | a member standing at the history's chain then holds the very key of the epoch that the history derives |
| FollowingCommits.LeftForLater | crates/sqex-chat/src/client.rs:3179-3187 | of an agreed channel, an envelope whose commit is not read yet is left, prekey and all |
| FollowingCommits.CollectionCatchesUp | crates/sqex-chat/src/client.rs:3118-3304 | one collection of the envelopes a member lacks, in any order and others among them, brings it to the epoch of the last commit read or beyond, on the channel's chain and with its key of every epoch |
| WelcomeProtocol.StepKeepsInv | crates/sqex-chat/src/client.rs:3038-3112 | every step of committers, exchange and device keeps the protocol's invariant |
| WelcomeProtocol.RunsKeepInv | crates/sqex-chat/src/client.rs:5052-5166 | so does every run of a channel made by `create_agreed_group` |
| WelcomeProtocol.NothingIsMisread | crates/sqex-chat/src/client.rs:3118-3288 | over every interleaving each envelope was opened with its own epoch's commit read, a `Welcome` as one, a secret as one, and none as an admin key |
| WelcomeProtocol.WelcomeAtFirstEpochIsMisread | crates/sqex-chat/src/client.rs:5143-5166 | a `Welcome` for epoch 1 with no commit in the log yet is taken for an admin key |
| WelcomeProtocol.CanJoin | crates/sqex-chat/src/client.rs:3038-3304 | from any state of such a run an idle member with no chain is brought to the chain of the commit that admits it by that commit's envelopes and entry, a collection, a fetch and the opening, and the fold to the end of the log |
| SigningChain.SigningStore.Position | crates/sqex-chat/src/client.rs:1314-1351 | the position signed at is the greater of what is remembered and reported; a new incarnation starts over |
| SigningChain.SigningStore.Prepare | crates/sqex-chat/src/client.rs:6693-6726 | the counter is taken and durable before the post, the position is not |
| SigningChain.SigningStore.PrepareAction | crates/sqex-chat/src/client.rs:1529-1561 | a membership action takes its position on the same chain and nothing durable |
| SigningChain.SigningStore.Acknowledged | crates/sqex-chat/src/store.rs:4049-4078 | the position moves only forwards, and its head with it |
| SigningChain.StepKeepsInv | crates/sqex-chat/src/client.rs:6749-6798 | every step of client, network and exchange keeps the invariant |
| SigningChain.OneChainWhateverIsLost | crates/sqex-chat/src/client.rs:1529-1561 | whatever is lost, late or restarted, the messages and membership actions accepted are one linked chain with every position once and counters rising, and the client's mark is never ahead, with one head where level |
| SigningChain.FreshReportLands | crates/sqex-chat/src/client.rs:1314-1351 | a message or an action signed from a fresh report is one the exchange takes |
| SigningChain.FreshReportCounts | crates/sqex-chat/src/client.rs:6693-6726 | from a fresh report the counter exceeds every one the exchange took in that epoch, store or no store |
| SigningChain.CountersNeverRepeat | crates/sqex-chat/src/client.rs:6693-6726 | whatever is reported, counters sent under one epoch strictly rise while epochs do not go back |
| SigningChain.CounterRepeatsExactly | crates/sqex-chat/src/store.rs:4085-4102 | a counter can repeat exactly below the cursor's epoch under a report that is behind |
| SigningChain.GoingBackRepeats | crates/sqex-chat/src/store.rs:4085-4102 | three sends that use one counter twice under one epoch |
| SigningChain.AcknowledgedNeverResigned | crates/sqex-chat/src/client.rs:6795-6798 | whatever is reported, nothing is signed at or below an acknowledged position |
| SigningChain.MarkIsAcknowledged | crates/sqex-chat/src/store.rs:4049-4078 | whatever is reported, the mark is the highest position acknowledged, with the link of the last signature acknowledged there |
| SigningChain.LinksToAcknowledged | crates/sqex-chat/src/client.rs:1344-1351 | a signature just above that position links to it, whatever head is reported for it; one higher, to the head reported |
| SigningChain.CursorNeverFalls | crates/sqex-chat/src/store.rs:4085-4102 | the counter kept never falls within an epoch and starts over only with a higher one |
| SigningChain.CanSend | crates/sqex-chat/src/client.rs:6693-6798 | from any state, asking, signing, being taken and hearing so put what was to be said at the end of the chain and the mark after it |
| SigningChain.CanAct | crates/sqex-chat/src/client.rs:1529-1561 | and so for a membership action, whose counter stays |
| SigningChain.OrphanIsCounted | crates/sqex-chat/src/client.rs:1314-1351 | a post of a process that stopped, its store lost or not, can still be taken without anybody hearing of it, and the next report counts it |
| LogEntries.ChainBook.Rule | crates/sqex-chat/src/client.rs:1151-1257 | the verdict and the new chain map are those of the specification |
| LogEntries.OneEntryRaises | crates/sqex-chat/src/client.rs:1151-1257 | one entry raises at most its own device's mark, and a forged or unattributed one none |
| LogEntries.MarksNeverFall | crates/sqex-chat/src/client.rs:1206-1257 | over any stream a mark never falls and stands above all the device's verified entries |
| LogEntries.MarkFromOwn | crates/sqex-chat/src/client.rs:1206-1257 | a device's mark depends on its own verified entries alone |
| LogEntries.ValidIsConsecutive | crates/sqex-chat/src/client.rs:1206-1257 | a device's verified entries are all `Valid` exactly when they are one consecutive linked chain |
| LogEntries.ReplayIsFork | crates/sqex-chat/src/client.rs:1206-1257 | an entry from below the mark is a `Fork` and moves nothing |
| LogEntries.ReplaysChangeNothing | crates/sqex-chat/src/client.rs:1151-1257 | any verified entries from below the mark, put in anywhere, are each a `Fork`, and every other verdict is as without them |
| LogEntries.RepeatsLieBelow | crates/sqex-chat/src/client.rs:1206-1257 | in particular any verified entry served before |
| SignedWords.VerdictMeans | crates/sqex-chat/src/client.rs:1151-1218 | a member's entry is not `Forged` if and only if its device signed it as served, body included, under one of the keys, and is not bound elsewhere; it is attributed if and only if the device is the account's |
| SignedWords.OneSignatureOneEntry | crates/sqex-chat/src/client.rs:1174-1204 | wherever one signature is accepted, by whichever reader, it is over the same body and the same terms |
| SignedWords.ChainVerdictMeans | crates/sqex-chat/src/client.rs:1219-1257 | `Valid`, `Gap` and `Fork` by the position and link expected next |
| SignedWords.LinkIsSignedExactly | crates/sqex-chat/src/client.rs:1219-1222 | the link taken into the next position is the hash of what was signed if and only if the hash served is the body's |
| SignedWords.AlteredHashAccuses | crates/sqex-chat/src/client.rs:1192-1240 | with that hash altered an entry stays `Valid` and the honest one after it is a `Fork` |
| Receipts.StandingUnderKeys | crates/sqex-chat/src/client.rs:1068-1083 | the loop gives the first key's standing that does not repudiate, or the last one's |
| Receipts.MoreKeysOnlyReplaceRepudiated | crates/sqex-chat/src/client.rs:1068-1083 | adding predecessor keys changes a result exactly where it was `Repudiated` |
| Receipts.ReceiptNamesItsKey | crates/sqex-chat/src/client.rs:1085-1137 | a receipt good under one key is repudiated under any other |
| Receipts.StandingMeans | crates/sqex-chat/src/client.rs:1085-1137 | each standing by whose receipt it is, over which terms, and whether the head follows from the one held |
| Receipts.StandingUnderMeans | crates/sqex-chat/src/client.rs:1068-1083 | under a list of keys an entry is repudiated if and only if it has a receipt and none is theirs |
| Receipts.HonestLogIsVouched | crates/sqex-chat/src/client.rs:1129-1136 | of an honest log an entry is vouched for if and only if the head held is the one the log had there, and diverges where it is another |
| Receipts.SameHeadSameLog | crates/sqex-proto/src/receipt.rs:57-62 | two vouched runs that end at one head and position have the same hashes, heads and member terms wherever both are linked |
| Receipts.SameLogExactly | crates/sqex-chat/src/client.rs:7246-7252 | of two vouched runs that end at one head, the heads at a number both hold agree if and only if they end at one position |
| Receipts.HeadAloneIsNotEnough | crates/sqex-chat/src/client.rs:7246-7252 | two vouched runs at one head with different entries at one number |
| LogFold.ChannelRows.FoldEntries | crates/sqex-chat/src/client.rs:7149-7400 | the loop leaves the rows, the timeline and the cursor of the specified fold, passing through the durable states specified |
| LogFold.ChannelRows.FoldEntry | crates/sqex-chat/src/client.rs:7196-7390 | one turn: replay check, opening, verdict, standing, and what is shown |
| LogFold.ChannelRows.WriteEntry | crates/sqex-chat/src/client.rs:7219-7325 | what is written for an entry, forged and expired ones included, write by write: the counter first, then the signed copy, the message, its timer and what it redacts or commits |
| LogFold.ChannelRows.Expire | crates/sqex-chat/src/store.rs:1854-1885 | exactly the messages whose timers have run out go, with copy and timer; expiring again from any state on the way ends the same |
| TimedMessages.WordsExactly | crates/sqex-chat/src/client.rs:7204-7218 | the words of an entry are its body at epoch 0 and of a commit, and else what was sealed under the epoch's key for its device and counter |
| TimedMessages.ToldExactly | crates/sqex-chat/src/client.rs:7258-7290 | an entry past the replay check is kept, and shown with its words, if and only if it is signed for and has no timer or time left; one nobody signed for is shown without a body and not kept |
| TimedMessages.KeptExactly | crates/sqex-chat/src/client.rs:7300-7390 | the row kept, and that no other row changes but one redacted |
| TimedMessages.CountedExactly | crates/sqex-chat/src/client.rs:7227-7231 | a counter is recorded exactly for a member's entry that could be read |
| TimedMessages.LogToldExactly | crates/sqex-chat/src/client.rs:7149-7400 | so over a whole log: what is kept, and what is shown |
| TimedMessages.GoesInTimeExactly | crates/sqex-chat/src/store.rs:1854-1885 | after any folds and expiries, by any clocks, a message held goes if and only if it has a timer and that has run out |
| TimedMessages.StoppedOutlivesItsTime | crates/sqex-chat/src/client.rs:7300-7319 | stopped between the message and its timer, the message is there after anything folded and expired later |
| ToldStandings.HonestLogTold | crates/sqex-chat/src/client.rs:7240-7252 | of an honest log served in order, with or without some of it, an entry right after another is vouched for and any other unlinked |
| ToldStandings.AsksAgainExactly | crates/sqex-chat/src/client.rs:7253-7257 | over a whole log the client asks again where the channel lives if and only if some receipt is nobody's |
| LogFold.NothingIsOpenedTwice | crates/sqex-chat/src/client.rs:7149-7319 | over any folds of any overlapping entries no device, epoch and counter is opened twice, system entries being unsealed |
| LogFold.OpensAgainExactly | crates/sqex-chat/src/client.rs:7196-7218 | one more entry is opened a second time if and only if it is served as the exchange's own, opens, and its counter was opened before |
| LogFold.RelabelledIsOpenedTwice | crates/sqex-chat/src/client.rs:7196-7218 | a sealed entry served again as a system entry is opened twice |
| LogFold.FoldingAgainConverges | crates/sqex-chat/src/store.rs:2586-2610 | folding early, in parts and with few keys, and once more with all of them stores the messages of one fold with all of them |
| StoppedFold.StopsSafelyExactly | crates/sqex-chat/src/client.rs:7219-7325 | folding an entry can be stopped after any of its writes and taken up again if and only if its counter does not keep it out, it is not to be kept, or all it would bring is there already |
| StoppedFold.StoppedIsLost | crates/sqex-chat/src/client.rs:7227-7230 | stopped after the counter is recorded, a new message is in the rows after no later folds, whatever their keys |
| StoppedFold.LostForGood | crates/sqex-chat/src/client.rs:7190-7202 | a counter recorded with no message beside it stays so over any folds |
| StoppedFold.ForgedSuppressesExactly | crates/sqex-chat/src/client.rs:7219-7281 | a forged entry is not kept, and a genuine one under its counter is kept by a later fold if and only if the forged one could not be read |
| StoppedFold.SpoiltCopySuppresses | crates/sqex-chat/src/client.rs:7219-7281 | any message that could be read is kept out of every later fold by its own copy with the signature spoilt |
| ForkPosts.ForkStore.ForkFound | crates/sqex-chat/src/client.rs:5387-5482 | nothing above the fork is left; every durable state on the way has every owed post in the log or set aside if and only if they fit; a fork dealt with is left alone |
| ForkPosts.OwedMeans | crates/sqex-chat/src/client.rs:5415-5474 | owed are exactly the account's own readable posts above the fork with no signed copy, with one without a receipt, or with one the former origin or one before it receipted and the current one did not |
| ForkPosts.OwedByReceipt | crates/sqex-chat/src/client.rs:5419-5444 | by whose receipt it is: owed under the former origin's, and not under the current one's |
| ForkPosts.TruncatedMeans | crates/sqex-chat/src/store.rs:4029-4047 | up to the fork a message stays with its copy and timer, above it none of the three does |
| ForkPosts.ForkStore.PutAside | crates/sqex-chat/src/store.rs:3950-3984 | a row already there stays, the row is added and then the bound applied, each a write of its own |
| ForkPosts.BoundIsTheQuery | crates/sqex-chat/src/store.rs:3974-3984 | the rows the bound leaves are those whose number is among the 256 highest listed, however ties are broken, over every exchange's rows of the channel |
| ForkPosts.ForkStore.Strand | crates/sqex-chat/src/client.rs:5447-5474 | every owed post is set aside, in any order, each write on the way to that |
| ForkPosts.ForkStore.TruncateAbove | crates/sqex-chat/src/store.rs:4029-4047 | the three deletes and the cursor, each leaving nothing owed out of reach |
| ForkPosts.ForkStore.PostAgain | crates/sqex-chat/src/client.rs:5631-5652 | the send comes first and the rows of that number go after it: both moments are recorded, and where the post is alone at its number every owed post is accounted for at each |
| ForkPosts.ForkStore.Forget | crates/sqex-chat/src/client.rs:5655-5657 | the one way a post is meant to go unsaid, on record at the moment the rows of its number go |
| ForkPosts.DroppingIsSafeExactly | crates/sqex-chat/src/store.rs:4015-4023 | saying one post again, or letting it go, leaves no other unsaid if and only if no other exchange's row is at its number |
| ForkPosts.StoppedAnywhere | crates/sqex-chat/src/client.rs:5387-5482 | stopped at any write and taken up again, everything still fits, and what keeps the rest keeps what was owed at first |
| ForkPosts.KeptOnlyIfFits | crates/sqex-chat/src/store.rs:3971-3984 | with nothing owed left in the log, all of it is kept only if it fits |
| ForkPosts.SentStaysAccounted | crates/sqex-chat/src/client.rs:5648-5651 | between the send and the row going, and after, every owed post is in the log, aside, said again or forgotten, where the row is alone at its number |
| ForkPosts.OnTheWayIsAccounted | crates/sqex-chat/src/client.rs:5447-5476 | so it is in every durable state a fork passes through |
| ForkPosts.NextForkKeepsAccount | crates/sqex-chat/src/client.rs:5387-5482 | posts of one fork stay accounted for through the next, under whichever exchange |
| ForkPosts.Rebuild | crates/sqex-chat/src/client.rs:5643-5648 | the parts of a post said again are those specified |
| ForkPosts.SaidOnce | crates/sqex-chat/src/client.rs:5643-5648 | a post said again says once when it was said, answers nothing above the fork and keeps its words |
| ForkPosts.CarriesPartByPart | crates/sqex-chat/src/client.rs:5643-5647 | which parts go along, in their order: all but `Said`, `Via` and replies to what was above the fork |
| PrekeyPool.RunIsBounded | crates/sqex-chat/src/client.rs:2204-2327 | any call, whatever is answered, leaves at most five pools or the rows as found; a successful one leaves at least `LOW_WATER` published and none waiting |
| PrekeyPool.NeverMoreThanFivePools | crates/sqex-chat/src/client.rs:2204-2378 | from a fresh store, over any calls and any answers, never more than five pools of secrets |
| PrekeySupply.SuccessIsEnough | crates/sqex-chat/src/client.rs:2264-2277 | a call that succeeds, told that `n` are served, makes good what is missing: those acknowledged before, no more than `n`, and those acknowledged now are `LOW_WATER` at least, and a pool wherever anything was minted |
| PrekeySupply.SuccessUntold | crates/sqex-chat/src/client.rs:2264-2277 | told nothing, it goes by what was acknowledged |
| PrekeySupply.SuccessServes | crates/sqex-chat/src/client.rs:2204-2327 | where the exchange says no more than it has and nobody is served meanwhile, it then serves `LOW_WATER` at least |
| PrekeySupply.StartsLowest | crates/sqex-chat/src/store.rs:2318-2377 | ids start at the first that is above every row, at the clock where there is none, and no lower than the exchange said where it was asked to clear |
| PrekeySupply.StartsFrom | crates/sqex-chat/src/client.rs:2264-2284 | a call that is done has minted what is short, from there, and offered what then waits |
| PrekeySupply.IdsAreNew | crates/sqex-chat/src/client.rs:2276-2327 | the ids minted are consecutive, and a fallback above them follows wherever anything was offered, the one before it spent |
| PrekeySupply.FailedLosesNothing | crates/sqex-chat/src/client.rs:2302-2306 | failed, a call loses no secret |
| PrekeySupply.OffersEndSo | crates/sqex-chat/src/client.rs:2279-2327 | an offering ends as the first answer that is not an acknowledgement says, the fallback's included |
| PrekeySupply.RefusalMeans | crates/sqex-chat/src/client.rs:2221-2240 | refused at the count no one-time secret is left; a count that makes no sense, or a `Clear` that fails where one is needed, changes nothing |
| PrekeySupply.DiscardMeans | crates/sqex-chat/src/client.rs:2293-2301 | refused at an offer, what was acknowledged before stays and nothing is left waiting |
| PrekeySupply.RefusedExactly | crates/sqexd/src/prekey.rs:170-234 | against an exchange that keeps its rules a call that finds too little is refused, changing nothing, if and only if an id was used before or the exchange would hold more than 128 |
| PrekeySupply.WipedWhileServed | crates/sqex-chat/src/client.rs:2226-2258 | a pool wiped for a refusal is refused again if and only if the exchange still serves more than 64 |
| PrekeyExchange.MoveKeepsInv | crates/sqexd/src/prekey.rs:170-234 | every durable write, message and act of others allowed keeps everything served, or still to be taken, answerable |
| PrekeyExchange.ServedIsAnswerable | crates/sqex-chat/src/store.rs:2427-2522 | so does every run of them, stopped anywhere |
| PrekeyExchange.WipeIsSafeExactly | crates/sqex-chat/src/client.rs:2255-2263 | once `Clear` has left nothing served, the rows may go, whatever is on its way, if and only if nothing is waiting in them |
| PrekeyExchange.LatePublishIsUnanswerable | crates/sqex-chat/src/client.rs:2355-2378 | a publish that arrives after the wipe leaves prekeys nobody can answer |
| PrekeyExchange.CallIsMoves | crates/sqex-chat/src/client.rs:2204-2327 | against an exchange that refuses nothing and says nothing untrue, with others acting in between, the rows, the exchange and the network a call leaves are reached by a run of those moves, where no rows that ran away are waiting; acknowledgements are recorded only for what the exchange has seen |
| PrekeyExchange.CallKeepsAnswerable | crates/sqex-chat/src/client.rs:2204-2327 | so in that very state, whose rows are those specified, everything served or still to be taken is answerable |
| PrekeyExchange.CallIsSafe | crates/sqex-chat/src/client.rs:2204-2327 | and so it is at every moment on the way there |
| PrekeyExchange.CrashSafeExactly | crates/sqex-chat/src/client.rs:2204-2327 | where nothing is refused, every moment a call may stop at is safe, whatever is said in truth and whatever the others do, if and only if the rows have not run away or nothing was waiting in them |
| PrekeyExchange.RunawayLosesWaiting | crates/sqex-chat/src/client.rs:2255-2263 | such a call: `Clear` is done, the rows go, and the batch still on its way is then served with no secret left |
| PrekeyExchange.DiscardIsSafeExactly | crates/sqex-chat/src/client.rs:2293-2301 | every moment of a call, refused or not, is safe whatever is answered in truth and whatever the others do, if and only if nothing was waiting when it began |
| PrekeyExchange.LostAcknowledgement | crates/sqexd/src/prekey.rs:170-234 | an acknowledgement lost, the next call finds its batch waiting, is refused and discards secrets the exchange serves |
| PrekeyExchange.RefusedForGood | crates/sqexd/src/prekey.rs:170-234 | a call that mints an id the exchange has had is refused and changes nothing |
| PrekeyExchange.ReloadedIdsComeBack | crates/sqex-chat/src/store.rs:2318-2377 | an id no row remembers is minted again after a reload exactly where no row is above it |
| PrekeyStore.PoolStore.TopUpPrekeys | crates/sqex-chat/src/client.rs:2204-2327 | the call is the one specified and passes through the moments specified; none of them holds more than five pools unless it found more; and each is safe, with nothing waiting whatever is answered in truth, and with no refusal where no rows that ran away are waiting |
| PrekeyStore.PoolStore.SaveAndOffer | crates/sqex-chat/src/client.rs:2279-2310 | the secrets are durable before the first batch is sent, and the moments from there on are those specified |
| PrekeyStore.PoolStore.OfferBatches | crates/sqex-chat/src/client.rs:2284-2310 | batch by batch: what memory learns is saved once, where the offering ends |
| PrekeyStore.PoolStore.BeginCall | crates/sqex-chat/src/client.rs:2220-2267 | up to the pool being loaded: the refusal, the wipe and the restart, and the moments on the way |
| PrekeyExchange.SafeEverywhere | crates/sqex-chat/src/client.rs:2276-2279 | safe throughout means safe at each recorded moment |
| FeedPosts.Sign | crates/sqex-proto/src/feed.rs:234-271 | what is signed verifies and carries the body signed |
| FeedPosts.OneHeadOneFeed | crates/sqex-proto/src/feed.rs:290-292 | dense feeds that end at one link have the same signed terms throughout |
| FeedPosts.TombstonesHold | crates/sqex-proto/src/feed.rs:279-301 | withdrawing a post leaves it verifying, the feed dense and its head as it was |
| FeedPublishing.PublishFrom | crates/sqex-chat/src/feed.rs:237-253 | two attempts at most, the second only after a stale refusal; it goes through the phases of the runs and never gives up by falling out of its loop |
| FeedPublishing.StepKeepsInv | crates/sqexd/src/feed.rs:227-363 | every step of any number of calls, network and exchange keeps the invariant |
| FeedPublishing.PublishedAtMostOnce | crates/sqex-chat/src/feed.rs:224-289 | under any interleaving and any losses the feed is dense from serial 1 and linked, no call's body is in it twice, a call told a serial has its body there, and one refused has nothing there or on its way |
| FeedPublishing.TakenExactlyAtHead | crates/sqex-chat/src/feed.rs:262-289 | a post is taken exactly while the head it was signed against is the feed's |
| FeedPublishing.StaleHeadRecovers | crates/sqex-chat/src/feed.rs:237-289 | from the feed's head a post goes in at once, and from any other, read again, at the end of the feed as it was read; one too long is never sent |
| FeedPublishing.RefusalIsFinalExactly | crates/sqex-chat/src/feed.rs:240-249 | a refusal is final if and only if it is the second or is not about the head |
| FeedPublishing.CanLand | crates/sqex-chat/src/feed.rs:237-289 | from any state, three steps from the head it reads put a call's post at the end of the feed and tell it so |
| FeedPublishing.CanLandAfterStale | crates/sqex-chat/src/feed.rs:237-289 | and so they do for a call that was refused as stale |
| TombstoneWalk.WhoTookItOff | crates/sqex-chat/src/feed.rs:772-795 | the loop is the walk specified, and makes at most `CORROBORATE` requests |
| TombstoneWalk.FindNotice | crates/sqex-chat/src/feed.rs:782-788 | found exactly where a post on the page redacts the serial |
| TombstoneWalk.WalkIsBoundedAndGrounded | crates/sqex-chat/src/feed.rs:772-795 | against any exchange: bounded requests, and `Withdrawn` only on a served post that verifies and redacts the serial |
| TombstoneWalk.WithdrawnIsSigned | crates/sqex-chat/src/feed.rs:439-467 | with bodies and accounts checked, `Withdrawn` was signed for |
| TombstoneWalk.ExchangedBodyIsBelieved | crates/sqex-chat/src/feed.rs:462-466 | any verifying post with its body exchanged makes the walk say `Withdrawn`; it was signed for exactly where the body matches |
| TombstoneWalk.NoticeIsFound | crates/sqex-chat/src/feed.rs:772-795 | on an honest feed, growing or not, every redaction within the next `CORROBORATE` serials is found whatever page size is served |
| TombstoneWalk.FoundIsThere | crates/sqex-chat/src/feed.rs:789-793 | and one found stands there, less than twice that far away |
| BigEndian.ReadBack | crates/sqex-chat/src/backup.rs:72-72 | what is read back of a number is what fits its width |
| BigEndian.WriteBack | crates/sqex-chat/src/backup.rs:82-82 | every string of bytes is the writing of one number |
| BigEndian.DigitMeans | crates/sqex-chat/src/backup.rs:72-72 | the most significant byte comes first |
| BackupSegments.WriteFrames | crates/sqex-chat/src/backup.rs:68-76 | the loop writes the frames specified |
| BackupSegments.ReadFrames | crates/sqex-chat/src/backup.rs:78-94 | the loop reads as specified, errors included |
| BackupSegments.HistoryRoundTrip | crates/sqex-chat/src/backup.rs:68-94 | any messages come back, with up to three stray bytes after them |
| BackupSegments.LongMessageIsLost | crates/sqex-chat/src/backup.rs:72-72 | a message comes back if and only if it is shorter than 2^32 bytes |
| BackupSegments.CutIsErrorOrPrefix | crates/sqex-chat/src/backup.rs:78-94 | cut anywhere, a segment is an error or exactly the messages whose frames are whole, never another |
| BackupSegments.AcceptedIsFramed | crates/sqex-chat/src/backup.rs:78-94 | what is accepted is the writing of what was read and at most three bytes more |
| BackupLists.WriteContacts | crates/sqex-chat/src/backup.rs:96-107 | the loop writes the segment specified |
| BackupLists.ReadContactsSegment | crates/sqex-chat/src/backup.rs:109-138 | the loop reads as specified, errors included |
| BackupLists.ContactsRoundTrip | crates/sqex-chat/src/backup.rs:96-138 | what becomes of any list, whatever its length, its labels and what follows it |
| BackupLists.ContactsComeBack | crates/sqex-chat/src/backup.rs:96-138 | a list that fits, of labels that fit, comes back as it was |
| BackupLists.CutContactsAreRefused | crates/sqex-chat/src/backup.rs:109-138 | cut anywhere it is an error |
| BackupLists.WriteFollows | crates/sqex-chat/src/backup.rs:140-148 | the loop writes the segment specified |
| BackupLists.ReadFollows | crates/sqex-chat/src/backup.rs:150-170 | the loop reads as specified, errors included |
| BackupLists.FollowsRoundTrip | crates/sqex-chat/src/backup.rs:140-170 | any list comes back exactly where its number fits four bytes and is refused otherwise |
| BackupLists.AcceptedFollows | crates/sqex-chat/src/backup.rs:150-170 | a segment is accepted if and only if it is the writing of some list |
| Base64.Write | crates/sqex-chat/src/main.rs:4631-4650 | the loops over chunks and sextets write the encoding specified |
| Base64.Alphabet | crates/sqex-chat/src/main.rs:4632-4632 | the alphabet is that of table 1 of RFC 4648 |
| Base64.RoundTrip | crates/sqex-chat/src/main.rs:4631-4650 | a strict decoder recovers every byte string |
| Base64.LetterMeans | crates/sqex-chat/src/main.rs:4635-4646 | the four letters of up to three bytes stand for their bits, in their order |
| Base64.ThreeByThree | crates/sqex-chat/src/main.rs:4634-4648 | and any bytes are encoded three by three: what comes after three of them, after their letters |
| Base64.Shape | crates/sqex-chat/src/main.rs:4633-4649 | four characters for every three bytes begun, and padding exactly at the end, by what is missing |
| Base64.OnlyEncodings | crates/sqex-chat/src/main.rs:4631-4650 | every string that decodes is the encoding of what it decodes to |
| TerminalScreen.Screen.Put | scripts/harness/tui.py:104-115 | a cluster is drawn at the cursor or over the last cell, a wide one covers the next, a lone mark draws nothing |
| TerminalScreen.Screen.EraseLine | scripts/harness/tui.py:117-126 | exactly the span of the mode is blank, in the cursor's row if there is one, or it raises |
| TerminalScreen.Screen.EraseScreen | scripts/harness/tui.py:128-139 | exactly the rows and cells of the mode are blank, or it raises |
| TerminalScreen.Screen.Csi | scripts/harness/tui.py:270-297 | a control sequence's effect, and the cursor back on the grid |
| TerminalScreen.CsiRaisesExactly | scripts/harness/tui.py:117-139 | a control sequence raises exactly on a number `int` refuses, erasing upwards from beyond the row below the last, or erasing onwards from left of a row with no cells |
| TerminalScreen.ErasingFromBelowRaises | scripts/harness/tui.py:136-139 | such an erase |
| TerminalFeed.ErasingFromBelowStops | scripts/harness/tui.py:212-267 | two newlines on a screen of one row and that erase, fed, raise |
| TerminalScreen.CsiErasesOnly | scripts/harness/tui.py:270-297 | every cell is as it was or blank, and the cursor ends on the grid |
| TerminalFeed.FeedScreen | scripts/harness/tui.py:212-267 | the loop applies the tokens and returns the tail specified, or raises where that does |
| TerminalFeed.Reader.Read | scripts/harness/tui.py:208-209 | what is held back is fed again in front of the next read |
| TerminalFeed.FirstCluster | scripts/harness/tui.py:65-86 | the loop finds where the first cluster ends |
| TerminalFeed.SteadyExactly | scripts/harness/tui.py:219-266 | every beginning of a text is held back or has its first token, if and only if the text is plain |
| TerminalFeed.TwoReadsAreOne | scripts/harness/tui.py:212-267 | one read and then another are one read of both, raising or not |
| TerminalFeed.ReadsDoNotMatter | scripts/harness/tui.py:185-209 | the screen does not depend on where any number of reads fall |
| TerminalFeed.OrdinaryIsClean | scripts/harness/tui.py:212-267 | text with nothing joining and no ST is such a stream |
| TerminalFeed.ShapeIsKept | scripts/harness/tui.py:89-139 | the grid is exactly rows by columns through any reads of anything |
| TerminalFeed.BellAfterTerminator | scripts/harness/tui.py:244-253 | a stream whose screen depends on where the read ends |
| TerminalMeaning.FieldsMean | scripts/harness/tui.py:271-271 | the fields of a parameter string are what stands between its semicolons |
| TerminalMeaning.NumbersMean | scripts/harness/tui.py:271-271 | each number is its field's, or zero |
| TerminalMeaning.CursorMeans | scripts/harness/tui.py:273-297 | where each cursor command takes the cursor, on the grid, and that it draws nothing |
| TerminalMeaning.ClampIsNearest | scripts/harness/tui.py:296-297 | off the grid, the nearest place on it |
| TerminalMeaning.ErasesExactly | scripts/harness/tui.py:117-139 | a cell is blank after an erase where the command and its mode say, and as it was everywhere else |
| TerminalMeaning.DrawsExactly | scripts/harness/tui.py:104-115 | the cells a cluster takes, and no other, and how far the cursor goes |
| TerminalMeaning.WidthMeans | scripts/harness/tui.py:44-62 | two, none or one cell, by the first character and the emoji selector |
| TerminalMeaning.ControlsMean | scripts/harness/tui.py:252-260 | newline, return, backspace and the next tab stop |
| TerminalMeaning.CommandMeans | scripts/harness/tui.py:227-235 | a control sequence ends at the first final character after its bracket |
| TerminalMeaning.SystemCommandMeans | scripts/harness/tui.py:236-246 | an operating system command ends at the first BEL, or where there is none at the first ST |
| TerminalMeaning.CharacterMeans | scripts/harness/tui.py:246-266 | what every other character is taken for |
| TerminalMeaning.ClusterMeans | scripts/harness/tui.py:65-86 | the first cluster is a character and all that goes on from it, within nine |
| TerminalMeaning.JoinsMeans | scripts/harness/tui.py:41-75 | what goes on from the character before it |
| TerminalMeaning.CharacterSetIsDrawn | scripts/harness/tui.py:247-248 | the last character of a character-set escape is drawn |

## Left out

- Transport, dialling, timeouts, event streams, discovery, the link light: a request is answered, refused or lost.
- Real cryptography: signatures, hashes and sealed bodies are terms, so a collision or a forgery cannot be expressed.
- Integer widths: sequence numbers, epochs, counters and serials are unbounded; the widths of the backup formats and of base64 are modelled.
- Database failures, and an append at the exchange that stores the post but not the head.
- The rest of the client: the interface, profiles, handles, attachments, moves, succession, handovers, device linking.
- The creator's own sibling devices at epoch 1, and a pruned log, are outside the protocol of `WelcomeProtocol`.
- LogFold.ChannelRows.FoldEntries: rehome entries met while folding are not modelled; that the client derives after a run that brought commits is `AgreedChannel`'s concern, whose rows are kept apart from these.
- LogFold.ChannelRows.FoldEntry: which redactions the timeline honours is a set given to the fold.
- Refusals shown to a person are not modelled.
- LogFold.FoldingAgainConverges: for a log with unique counters and no timers or redactions, which are settled by time and by the timeline rather than by the keys held.
- Receipts.SameHeadSameLog: the body itself only where its hash was checked, since receipts name the body hash.
- ForkPosts.ForkStore.ForkFound: that the chain is to be continued from the winning origin is a result (`rechain`); the request it makes is not modelled.
- PrekeyExchange.CallIsMoves: for an exchange that supports `Clear` and refuses nothing, and not for rows that ran away with something waiting in them, for which it is false (`RunawayLosesWaiting`); refusals of a publish have their own exact result, and a refusal at the count drops the whole pool by design.
- StoppedFold.StoppedIsLost: for a number at which no other entry is served; another would be kept at it.
- SigningChain.OneChainWhateverIsLost: a membership action asks for its own report, as every call of the client does, so reports older than that one are not used after it.
- BackupSegments.HistoryRoundTrip: the SIP-42 messages are any whose codec reads back what it writes; their own formats are not modelled.
- BackupLists.ContactsComeBack: what `from_utf8_lossy` does to a label cut inside a character is a parameter.
- TerminalFeed.Reader.Read: the split of bytes inside a character is left to the incremental decoder, and what Unicode says of a character is a parameter.
- `render`, `numbered` and `show`, which only print the grid.
- Eviction and expiry at the exchange, seen by the walk as a feed that is dense above the tombstone.
