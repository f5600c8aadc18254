# Verification model of paymentd

paymentd is a payment server: it creates payments, leads the payer through the
page of a payment service provider, and keeps a ledger of signed amounts for
every payment. These files model the parts of it that carry state and
arithmetic, and prove what they keep.

| file | what it models |
|---|---|
| `Lifecycle.dfy`, `Server.dfy`, `LedgerTable.dfy` | the life of one payment: the web handler, the PayPal and FritzPay drivers and their goroutines as interleaved database transactions; the same handlers written out statement by statement, each of which may fail; the transaction table and its two queries |
| `Intent.dfy` | `handleIntent`: pre-, post- and commit-workers, the read lock, the `done` and `commit` channels, both wait groups, as a step system |
| `PaymentId.dfy` | the obfuscated payment identifiers: extended Euclid, multiplication modulo 2^63, mask, and their text |
| `Rounding.dfy`, `Finite.dfy`, `Decimal.dfy`, `DecimalText.dfy`, `Ledger.dfy` | the decimals below the ledger (aligned addition into one of the operands, rounded and exact division, printing and scanning) and the balance of a list of transactions |
| `Buffer.dfy`, `Packets.dfy`, `LongData.dfy` | the MySQL driver's read buffer, its packet framing with headers written in place, and the chunked sending of long parameters |
| `InitPayment.dfy` | the retrying transaction that creates a payment with configuration, metadata and token |
| `Metadata.dfy`, `PaymentMetadata.dfy`, `PaymentHandler.dfy` | the append-only metadata and configuration tables, and how the web handler reads, changes and writes them back |
| `Listener.dfy` | the gracefully closing listener |
| `Auth.dfy`, `Base64.dfy` | the signed and encrypted authorization container and the rotating keychain |
| `Transactions.dfy` | transactions of the payment database: what each sees, what a commit shows, and which are never finished |
| `Arith.dfy`, `Digits.dfy`, `Bytes.dfy`, `Sequences.dfy`, `Wrappers.dfy` | shared number theory, decimal numerals, bytes, sequences, `Option` and `Result` |

## Assumptions

* Database transactions are serialisable: a transaction is one step of a run.
* The clock advances from one event to the next; timestamps of different
  inserts differ.
* Error 1213 rolls the whole transaction back; a commit that reports an error
  has committed nothing.
* Which statement fails, what the network delivers, which worker objects, the
  random bytes and the choice among ready goroutines are arbitrary parameters.
* Hash, key derivation, key stream, and the packing of payloads (gzip of JSON)
  are arbitrary functions; what is sealed must survive its packing
  (`Auth.Crypto.Packs`), and such functions exist (`Auth.PackingExists`).
* Integers are unbounded, except for the identifiers, timestamps and bytes
  whose width the program relies on (`int64`, 24-bit lengths, sequence numbers
  modulo 256).

## Where the code does not do what one expects

The model follows the code; each of these is proved with its exact condition.

* A paid ledger entry carries the time at which its intent was granted, not that
  of its commit. A cancellation dated between the two hides it: the payment then
  reads as cancelled although it was paid (`Lifecycle.StatusAfterSettlement`,
  `Lifecycle.HiddenByCancellation`, `Lifecycle.CancellationHidesPayment`). The
  balance is right all the same.
* A cancelled payment can still be settled, namely by a job that was granted its
  intent, or read the status, before the cancellation
  (`Lifecycle.SettledAfterCancellation`, `Lifecycle.CancelledPaymentPaid`).
* The driver's packet reader rejects empty packets, so it reads back what its
  writer framed exactly when the length is not a multiple of the packet size
  (`Packets.FramesRoundTrip`).
* Public payment identifiers lead back to their payment exactly when neither
  number nor the configured mask is negative (`PaymentId.EncodedRoundTrip`).
* A decimal with negative scale is printed with trailing zeros and read back at
  scale zero (`DecimalText.ReadPrinted`).
* Each lock error inside a transaction that is begun anew leaves one transaction
  that the program neither commits nor rolls back (`InitPayment.InitPayment`,
  `Server.PaymentServer.VisitPage`, `Server.PaymentServer.FritzPayPending`). The
  PayPal handlers leave none.
* A serialized container is read back only by a reader that has salt and
  signature at hand as a whole (`Auth.ReadSerialized`).
* The message that is signed has no delimiter behind the timestamp, so a
  signature stands for several containers (`Auth.SameMessage`).
* Decoding adds to the entries a container already holds
  (`Auth.DecodedIntoHeld`).

## Model

| member | source | states |
|---|---|---|
| Lifecycle.AtMostOneSettlement | pkg/service/provider/paypal_rest/driver.go:285-357 | over every interleaving each kind of PayPal row is written at most once, one goroutine runs at most, and a paid or authorized ledger entry exists exactly when the execute response row does |
| Lifecycle.BalanceOfRun | pkg/service/payment/service.go:510-571 | the balance of every run is empty before the payment was opened, then 0 if a paid entry was recorded and minus the amount otherwise, whenever a cancellation happens |
| Lifecycle.LedgerOfRun | pkg/service/web/payment.go:378-415 | in every run the open entry comes first and is the only one, there is at most one cancellation, and all entries have the payment's currency and subunits |
| Lifecycle.AppendOnly | pkg/paymentd/payment/payment_transaction_sql.go:25-49 | extending a run only appends to the ledger and to the PayPal log |
| Lifecycle.StatusAfterSettlement | pkg/service/provider/paypal_rest/driver.go:645-759 | after a settlement the current status is the settlement's if and only if no cancellation is dated later, and `Cancelled` otherwise |
| Lifecycle.CancellationHidesPayment | pkg/service/provider/paypal_rest/driver.go:835-861 | a run in which the payment was paid and reads as cancelled |
| Lifecycle.StatusAtCommit | pkg/service/provider/paypal_rest/driver.go:723-758 | at the commit of a settlement its status is what is read if and only if every entry of the ledger is older than its grant |
| Lifecycle.HiddenByCancellation | pkg/service/provider/paypal_rest/driver.go:645-759 | for every run: a granted settlement is shown at its commit if and only if no cancellation took effect between the grant and the commit |
| Lifecycle.LedgerMeanwhile | pkg/service/provider/paypal_rest/driver.go:645-759 | between grant and commit the ledger gains one cancellation at most, dated after the grant |
| Lifecycle.SettledAfterCancellation | pkg/service/provider/paypal_rest/driver.go:625-658 | a payment that reads as cancelled and was not settled is settled by some continuation if and only if a job is out that was granted its intent or read the status before the cancellation |
| Lifecycle.CancelledPaymentPaid | pkg/service/provider/paypal_rest/driver.go:552-658 | a run from the current status cancelled to paid |
| Lifecycle.StepKeeps | pkg/service/provider/paypal_rest/driver.go:470-629 | every event keeps the joint shape of ledger, PayPal log and running goroutines |
| Lifecycle.RunKeeps | pkg/service/provider/paypal_rest/driver.go:259-873 | every reachable state has that shape |
| Lifecycle.Latest | pkg/paymentd/payment/payment_transaction_sql.go:51-64 | the current transaction is in the ledger and none is younger |
| Lifecycle.LatestRow | pkg/service/provider/paypal_rest/sql.go:93-107 | the current PayPal row is in the log and none is younger |
| Lifecycle.OpenOnlyAlone | pkg/service/payment/service.go:526-529 | in every ledger that occurs the current status is open exactly while the open entry is alone, and uninitialized exactly while there is none |
| Lifecycle.EnteredAsCreated | pkg/service/provider/paypal_rest/driver.go:645-652 | in every run a paid entry, with the amount, exists only if PayPal created the payment as a sale, and an authorized entry, with nothing, only if as an authorization |
| Lifecycle.BalancedBySale | pkg/service/payment/service.go:538-571 | in every run the balance of an opened payment is zero if and only if a payment created as a sale was executed, and the amount owed otherwise |
| Lifecycle.RunKeepsIntent | pkg/service/provider/paypal_rest/driver.go:602-658 | every job and every settled entry of a run belongs to the intent of the create response |
| PaymentHandler.SaveVisit | pkg/service/web/payment.go:284-344 | the statements that read and write configuration and metadata leave, in the open transaction, the view of the visit for this payment and every other view alone |
| Server.PaymentServer.OpenIfNew | pkg/service/web/payment.go:372-399 | the opening entry is added exactly when the payment has no transaction |
| Server.PaymentServer.VisitStatements | pkg/service/web/payment.go:284-399 | all statements of one transaction: configuration, metadata and the opening |
| Server.PaymentServer.VisitAttempt | pkg/service/web/payment.go:277-416 | one transaction: the whole visit, nothing, or a retry that leaves a transaction unfinished exactly when a statement was refused its lock |
| Server.PaymentServer.VisitPage | pkg/service/web/payment.go:233-423 | whatever statement fails and however often it is retried, configuration, metadata and opening are committed together, once, or not at all; one transaction stays unfinished for each lock error inside one |
| Server.PaymentServer.PendingStatements | pkg/service/provider/fritzpay/init.go:59-107 | the provider's own row and the pending entry; a payment registered with another method key is refused |
| Server.PaymentServer.PendingAttempt | pkg/service/provider/fritzpay/init.go:53-121 | one transaction: both, nothing, or a retry |
| Server.PaymentServer.FritzPayPending | pkg/service/provider/fritzpay/init.go:44-121 | the provider's row and the pending entry are committed together or not at all, under every pattern of failures; one transaction stays unfinished for each lock error inside one |
| Server.PaymentServer.SaveRequest | pkg/service/provider/paypal_rest/driver.go:303-352 | in an open transaction: the row that announces a request is committed, or the transaction is rolled back; it is finished either way |
| Server.PaymentServer.BeginAndRead | pkg/service/provider/paypal_rest/driver.go:278-289 | a transaction is begun and read, or none is left open |
| Server.PaymentServer.InitPayment | pkg/service/provider/paypal_rest/driver.go:259-357 | the create request is recorded and its goroutine started together, on the first call only; no transaction is left open |
| Server.PaymentServer.SetPayPalError | pkg/service/provider/paypal_rest/driver.go:124-143 | an error row of its own, or nothing |
| Server.PaymentServer.SaveResponse | pkg/service/provider/paypal_rest/driver.go:416-461 | response row and error row are statements of one transaction, which is finished on every path; the commit shows both or nothing |
| Server.PaymentServer.Answer | pkg/service/provider/paypal_rest/driver.go:377-462 | what the create goroutine writes, for every response and failure |
| Server.PaymentServer.DoInit | pkg/service/provider/paypal_rest/driver.go:359-468 | the create goroutine ends as one event of the run; a response row needs a delivered response |
| Server.PaymentServer.ReturnHandler | pkg/service/provider/paypal_rest/driver.go:506-627 | execution is requested only when the create response is the current row, with the status read in the same transaction |
| Server.PaymentServer.AskForIntent | pkg/service/payment/service.go:542-571 | an intent is granted exactly when the status its caller read was open, no worker objects and the method can be used; the entry has the time of now, and the amount only when it is paid |
| Server.PaymentServer.IntentOf | pkg/service/provider/paypal_rest/driver.go:641-658 | a sale asks for a paid entry with the amount, an authorization for an authorized entry with nothing, both at the time of now; refusals of a known intent are recorded |
| Server.PaymentServer.AskToExecute | pkg/service/provider/paypal_rest/driver.go:631-664 | the job becomes a settling job with that entry, or ends, with an error row if its intent is known |
| Server.PaymentServer.SaveSettlement | pkg/service/provider/paypal_rest/driver.go:707-758 | the execute response and the ledger entry are statements of one transaction, which is finished on every path; the commit shows both or nothing |
| Server.PaymentServer.Conclude | pkg/service/provider/paypal_rest/driver.go:666-762 | what the execute goroutine writes, for every response and failure |
| Server.PaymentServer.Settle | pkg/service/provider/paypal_rest/driver.go:666-767 | the execute goroutine ends as one event of the run |
| Server.PaymentServer.CancelEntry | pkg/service/provider/paypal_rest/driver.go:835-853 | a second cancellation writes nothing, an open payment gets one entry, any other state is refused |
| Server.PaymentServer.CancelStatements | pkg/service/provider/paypal_rest/driver.go:835-861 | the rest of an open transaction that cancels, committed or rolled back |
| Server.PaymentServer.CancelHandler | pkg/service/provider/paypal_rest/driver.go:804-869 | a cancellation is its event or nothing; a payment already cancelled gets no second entry |
| Server.Handle | pkg/service/provider/paypal_rest/driver.go:259-873 | every call of a handler is exactly one event of the run, changes the view of the payment only by a committed visit, and leaves a transaction unfinished only for a lock error before a new attempt |
| Server.Advance | pkg/service/provider/paypal_rest/driver.go:259-873 | a run is extended by the event of the call |
| Server.AdvanceAll | pkg/service/provider/paypal_rest/driver.go:259-873 | any schedule of calls extends to a run of as many events |
| Server.Serve | pkg/service/provider/paypal_rest/driver.go:259-873 | any schedule of calls on a new payment is a run, with the settlement and balance claims for the written-out handlers, the view its committed visits lead to, and the count of unfinished transactions |
| LedgerTable.Table.Insert | pkg/paymentd/payment/payment_transaction_sql.go:32-49 | one transaction more for its payment, none for others |
| LedgerTable.Table.Youngest | pkg/paymentd/payment/payment_transaction_sql.go:51-64 | the scan finds the transaction with the greatest timestamp |
| LedgerTable.Table.Current | pkg/paymentd/payment/payment_transaction_sql.go:89-104 | the payment learns status and time of its current transaction and keeps both when there is none |
| LedgerTable.Table.Before | pkg/paymentd/payment/payment_transaction_sql.go:106-171 | the transactions up to a time, each once, in order of time; not found exactly when there is none |
| LedgerTable.CurrentBalance | pkg/paymentd/payment/payment_transaction_sql.go:139-171 | the list up to the current transaction ends with it and has the balance of the whole ledger |
| LedgerTable.BalancePermuted | pkg/paymentd/payment/payment_transaction.go:121-132 | permuted lists have the same balance |
| Intent.CallDiscipline | pkg/service/payment/service.go:400-508 | in every interleaving the lock is given back once, `done` closed at most once, and an error return has run no post or commit worker |
| Intent.WaitGroups | pkg/service/payment/service.go:449-500 | both wait groups are never negative and are passed only after every result |
| Intent.AtMostOnce | pkg/service/payment/service.go:475-503 | no commit worker runs twice, without a commit, or after the timer won |
| Intent.CommitProgress | pkg/service/payment/service.go:475-503 | every step of the commit goroutines brings their end nearer |
| Intent.QuietCompletes | pkg/service/payment/service.go:477-500 | committed goroutines that can do nothing more have run every worker once, or the timer fired and they have run none |
| Intent.CommittedCompletes | pkg/service/payment/service.go:468-504 | in every run in which the commit function was called behind the grant: when the goroutines can do nothing more, every worker registered when the commit was seen, one at least, ran exactly once, or the timer fired and none ran; without the timer always the former |
| Intent.CommitReaches | pkg/service/payment/service.go:468-475 | in every run that ends with a granted commit function, calling it closes the channel, and changes nothing else |
| Intent.CommitCanComplete | pkg/service/payment/service.go:468-504 | from every granted state in which the timer has not fired, a commit can be brought to the end with every registered commit worker run once |
| Intent.ExpiryEnds | pkg/service/payment/service.go:475-503 | once the timer is seen no continuation runs a commit worker, committed or not |
| Intent.CallServesRegistered | pkg/service/payment/service.go:414-507 | whatever is registered meanwhile, a granted call has launched every pre-intent worker and called every post-intent worker registered when it took the lock, and has a commit function exactly if there was a commit worker |
| Intent.ReasonOfRun | pkg/service/payment/service.go:405-443 | in every run a refusal carries an error that a worker sent, and the context or the deadline is reported only for its own cause |
| Intent.SelectionObeyed | pkg/service/payment/service.go:424-443 | while the call selects, an error sent refuses it, the closed context ends it, and the timer lets it go on; `done` is closed and the lock given back |
| Intent.RegisteredCounts | pkg/service/payment/service.go:203-219 | registrations before a call count, each for its own kind |
| Intent.PostsCanEnd | pkg/service/payment/service.go:449-466 | the goroutine behind the post-intent workers can always collect one result for each of them |
| Intent.CallerNeverStuck | pkg/service/payment/service.go:414-507 | until it returns the caller has a step |
| Intent.StepKeeps | pkg/service/payment/service.go:203-219 | every step, registrations included, keeps the invariant |
| Intent.RunKeeps | pkg/service/payment/service.go:400-508 | the invariant holds in every run |
| PaymentId.ExtendedGcd | pkg/paymentd/payment/payment_id.go:88-92 | a terminating extended Euclid with its Bezout identity, and 0 for operands that are not positive |
| PaymentId.CoprimeToModulus | pkg/paymentd/payment/payment_id.go:88-101 | a positive number is coprime to 2^63 exactly when it is odd |
| PaymentId.NewIDEncoder | pkg/paymentd/payment/payment_id.go:88-101 | succeeds exactly for odd positive multipliers, with a true inverse, and hides by multiplying with that very multiplier modulo 2^63 behind the mask |
| PaymentId.ShowHide | pkg/paymentd/payment/payment_id.go:103-117 | `Show` undoes `Hide` on every non-negative number |
| PaymentId.HideShow | pkg/paymentd/payment/payment_id.go:103-117 | `Hide` undoes `Show` exactly on numbers with the sign of the mask |
| PaymentId.HidesProduct | pkg/paymentd/payment/payment_id.go:103-117 | for every number: hidden and unmasked it is its product with the multiplier modulo 2^63; shown, its product with the multiplier is the unmasked number |
| PaymentId.EncodedHides | pkg/paymentd/payment/payment_id.go:60-63 | the project stays as it is, the payment is the masked product |
| PaymentId.ParsesAroundDash | pkg/paymentd/payment/payment_id.go:26-51 | a text parses exactly when it has one dash with a number on either side, the project first |
| PaymentId.ParsePrinted | pkg/paymentd/payment/payment_id.go:26-58 | parsing undoes printing exactly for identifiers without a sign |
| PaymentId.PrintParsed | pkg/paymentd/payment/payment_id.go:26-58 | printing undoes parsing exactly when both parts are canonical numerals |
| PaymentId.EncodedRoundTrip | pkg/paymentd/payment/payment_id.go:44-63 | the encoded text leads back exactly for non-negative numbers and mask |
| Rounding.RoundingUnique | Godeps/_workspace/src/code.google.com/p/godec/dec/rounder.go:31-45 | every rounding mode, defined without an algorithm, has at most one result |
| Rounding.DocumentedTables | Godeps/_workspace/src/code.google.com/p/godec/dec/rounder.go:46-235 | the definition of every mode gives the documented results for the quotients by 10 |
| Rounding.BitLengthShortcut | Godeps/_workspace/src/code.google.com/p/godec/dec/rounder.go:261-302 | the bit-length decision is the exact comparison of twice the remainder with the divisor, for all signs and the three half modes |
| Rounding.HalfRounds | Godeps/_workspace/src/code.google.com/p/godec/dec/rounder.go:261-302 | moving the truncated quotient by that decision gives the defined half-up, half-down or half-even value |
| Rounding.DirectedRounds | Godeps/_workspace/src/code.google.com/p/godec/dec/rounder.go:239-320 | where up, floor, ceil and exact move a truncated quotient |
| Finite.Factor | Godeps/_workspace/src/code.google.com/p/godec/dec/dec.go:304-317 | the factor loop terminates with the exact multiplicity |
| Finite.Factor2 | Godeps/_workspace/src/code.google.com/p/godec/dec/dec.go:319-325 | counting low zero bits gives the multiplicity of 2 |
| Finite.FiniteAtScale | Godeps/_workspace/src/code.google.com/p/godec/dec/dec.go:292-302 | a quotient has a finite decimal expansion exactly when it ends at the larger of the two multiplicities |
| Finite.NeededPlaces | Godeps/_workspace/src/code.google.com/p/godec/dec/dec.go:292-302 | a quotient that ends after some number of places needs no fewer than the larger of the two multiplicities |
| Decimal.Dec.Set | Godeps/_workspace/src/code.google.com/p/godec/dec/dec.go:127-133 | copies the value, also onto itself |
| Decimal.Dec.Rescale | Godeps/_workspace/src/code.google.com/p/godec/dec/dec.go:346-357 | exact when refining, truncating when coarsening, the receiver itself at its own scale |
| Decimal.Dec.Upscale | Godeps/_workspace/src/code.google.com/p/godec/dec/dec.go:327-337 | both operands at the larger scale |
| Decimal.Dec.Add | Godeps/_workspace/src/code.google.com/p/godec/dec/dec.go:172-177 | the exact sum at the larger scale although the receiver may be an operand |
| Decimal.Dec.QuoRem | Godeps/_workspace/src/code.google.com/p/godec/dec/dec.go:246-283 | the quotient of the dividend, times a power of ten for a finer scale, by the divisor, times a power of ten for a coarser one, truncated, with the remainder that is left over that divisor |
| Decimal.Dec.RoundExact | Godeps/_workspace/src/code.google.com/p/godec/dec/rounder.go:239-245 | the value itself, refused when anything remains |
| Decimal.Dec.RoundUp | Godeps/_workspace/src/code.google.com/p/godec/dec/rounder.go:252-259 | away from zero |
| Decimal.Dec.RoundFloor | Godeps/_workspace/src/code.google.com/p/godec/dec/rounder.go:304-311 | the greatest value below |
| Decimal.Dec.RoundCeil | Godeps/_workspace/src/code.google.com/p/godec/dec/rounder.go:313-320 | the least value above |
| Decimal.Dec.RoundHalf | Godeps/_workspace/src/code.google.com/p/godec/dec/rounder.go:261-287 | the receiver becomes the half-rounded value |
| Decimal.Dec.ApplyRounder | Godeps/_workspace/src/code.google.com/p/godec/dec/rounder.go:239-320 | every rounder gives its defined value; exact refuses when something remains |
| Decimal.Dec.Quo | Godeps/_workspace/src/code.google.com/p/godec/dec/dec.go:211-225 | the same quotient as its rounding mode defines it, refused exactly when the exact mode would have to round; untouched receiver on refusal |
| Decimal.Dec.Round | Godeps/_workspace/src/code.google.com/p/godec/dec/dec.go:198-200 | the value rounded to a power of ten as its mode defines it, unchanged in value at a finer scale, also in place |
| Decimal.Dec.ScaleQuoExact | Godeps/_workspace/src/code.google.com/p/godec/dec/dec.go:292-302 | the least scale not below that of the operands at which the quotient ends, if it ends anywhere |
| Decimal.Dec.QuoExact | Godeps/_workspace/src/code.google.com/p/godec/dec/dec.go:231-233 | succeeds exactly for finite expansions, with the exact quotient at the least such scale |
| Decimal.QuotientShiftFits | Godeps/_workspace/src/code.google.com/p/godec/dec/dec.go:246-262 | the shift computed with 32-bit scales is the true one exactly when that fits into 32 bits |
| Decimal.AlignedShiftFits | Godeps/_workspace/src/code.google.com/p/godec/dec/dec.go:346-357 | likewise for the shift of an aligned addition |
| DecimalText.AppendZeros | Godeps/_workspace/src/code.google.com/p/godec/dec/dec.go:363-372 | appends that many zeros, 64 at a time |
| DecimalText.String | Godeps/_workspace/src/code.google.com/p/godec/dec/dec.go:374-405 | the printed form has exactly `scale` digits behind the point |
| DecimalText.IntegerText | Godeps/_workspace/src/code.google.com/p/godec/dec/dec.go:374-385 | without places the text is that of the integer, a negative scale multiplied out |
| DecimalText.FractionText | Godeps/_workspace/src/code.google.com/p/godec/dec/dec.go:386-405 | with places: a sign for negative values, the whole part, a point, and as many digits as the scale |
| DecimalText.Scan | Godeps/_workspace/src/code.google.com/p/godec/dec/dec.go:418-466 | the scan stops at the first character that cannot continue a numeral |
| DecimalText.SetString | Godeps/_workspace/src/code.google.com/p/godec/dec/dec.go:473-485 | succeeds exactly on numerals, with their value and scale |
| DecimalText.NumeralOf | Godeps/_workspace/src/code.google.com/p/godec/dec/dec.go:418-466 | a sign or none, digits, and behind a point more digits denote those digits as an integer, with as many places as follow the point |
| DecimalText.NumeralParts | Godeps/_workspace/src/code.google.com/p/godec/dec/dec.go:418-466 | nothing else is a numeral |
| Digits.FormatNatDigits | Godeps/_workspace/src/code.google.com/p/godec/dec/dec.go:374-379 | every character of a printed number is its digit at that place, and there are no more than it needs |
| Digits.ParseIntForm | pkg/paymentd/payment/payment_id.go:33-40 | an identifier part is accepted exactly when it is one digit or more behind at most one sign and fits 64 bits |
| DecimalText.ReadPrinted | Godeps/_workspace/src/code.google.com/p/godec/dec/dec.go:374-485 | reading what was printed restores value and scale, and the value when the scale was negative |
| Ledger.Balance | pkg/paymentd/payment/payment_transaction.go:121-132 | the loop that adds into its own map entries computes the fold, on distinct fresh decimals |
| Ledger.BalanceIsTotal | pkg/paymentd/payment/payment_transaction.go:121-132 | exactly the currencies of the list, each with the exact sum at its largest scale |
| Ledger.TotalOfParts | pkg/paymentd/payment/payment_transaction.go:121-132 | a total is additive over lists, and that of one transaction is its amount times the power of ten that its subunits lack |
| Ledger.OrderIrrelevant | pkg/paymentd/payment/payment_transaction.go:121-132 | entries do not depend on the order of transactions |
| Ledger.FlatMap | pkg/paymentd/payment/payment_transaction.go:88-94 | every entry as its text |
| Ledger.Unflatten | pkg/paymentd/payment/payment_transaction.go:100-117 | succeeds exactly when every text is a numeral, with those values |
| Ledger.Transmit | pkg/paymentd/payment/payment_transaction.go:88-117 | a flattened balance that is read again has every amount |
| Ledger.DecimalRound | pkg/paymentd/payment/payment.go:78-82 | exact at a scale of at least the subunits, and otherwise the half-up value of the amount over the power of ten, at most half a unit away |
| Ledger.RoundingExactAmounts | pkg/paymentd/payment/payment.go:70-82 | an amount that ends at the requested place is its own half-up value |
| Buffer.ReadBuffer.MakeRoom | Godeps/_workspace/src/github.com/go-sql-driver/mysql/buffer.go:36-56 | moving and growing keep the window; the buffer grows only when it must, to the next multiple of 4096 |
| Buffer.ReadBuffer.Collect | Godeps/_workspace/src/github.com/go-sql-driver/mysql/buffer.go:58-78 | however the reader chunks its stream, window and remaining bytes stay the unread stream |
| Buffer.ReadBuffer.Fill | Godeps/_workspace/src/github.com/go-sql-driver/mysql/buffer.go:36-79 | fails on a reliable reader only when the stream is too short, and then keeps the window |
| Buffer.ReadBuffer.ReadNext | Godeps/_workspace/src/github.com/go-sql-driver/mysql/buffer.go:83-95 | the next bytes of the stream, exactly when there are that many |
| Buffer.ReadBuffer.TakeBuffer | Godeps/_workspace/src/github.com/go-sql-driver/mysql/buffer.go:101-116 | a large enough buffer, its own one when that suffices and a new one that it keeps unless it is too large; refused exactly while unread bytes are held, which stay |
| Buffer.ReadBuffer.TakeSmallBuffer | Godeps/_workspace/src/github.com/go-sql-driver/mysql/buffer.go:121-126 | likewise for small sizes |
| Buffer.ReadBuffer.TakeCompleteBuffer | Godeps/_workspace/src/github.com/go-sql-driver/mysql/buffer.go:131-136 | likewise for the whole buffer |
| Buffer.ReadAll | Godeps/_workspace/src/github.com/go-sql-driver/mysql/buffer.go:83-95 | any sequence of reads hands out consecutive pieces of the stream |
| Packets.Conn.PutHeader | Godeps/_workspace/src/github.com/go-sql-driver/mysql/packets.go:88-100 | three bytes of length, least significant first, the sequence number, and nothing else |
| Packets.Conn.SendPacket | Godeps/_workspace/src/github.com/go-sql-driver/mysql/packets.go:87-120 | one packet with its length and number reaches the wire and no byte still to be sent is overwritten |
| Packets.Conn.WritePacket | Godeps/_workspace/src/github.com/go-sql-driver/mysql/packets.go:80-122 | what reaches the wire has the layout of the protocol, packet by packet with length and number, though headers are written over sent bytes; a failure leaves a prefix |
| Packets.FramesAreLayout | Godeps/_workspace/src/github.com/go-sql-driver/mysql/packets.go:80-122 | bytes have the layout of a payload (k-th packet with its length in three bytes, least significant first, its number modulo 256 and its part of the payload) if and only if they are its frames |
| Packets.Conn.ReadOne | Godeps/_workspace/src/github.com/go-sql-driver/mysql/packets.go:28-62 | the data behind four bytes that hold its length and the expected number, in place, or which error |
| Packets.Conn.ReadHead | Godeps/_workspace/src/github.com/go-sql-driver/mysql/packets.go:28-51 | the length in the first three bytes and the number in the fourth, or what is wrong with them |
| Packets.Conn.ReadPacket | Godeps/_workspace/src/github.com/go-sql-driver/mysql/packets.go:26-77 | the bytes taken off the stream have the layout of the payload returned, in whatever pieces they arrive; exactly a payload of one packet lies in the read buffer itself |
| Packets.FramesRoundTrip | Godeps/_workspace/src/github.com/go-sql-driver/mysql/packets.go:26-122 | reading the frames of a payload yields it, except for the driver's own reader exactly on multiples of the packet size |
| Packets.LayoutRoundTrip | Godeps/_workspace/src/github.com/go-sql-driver/mysql/packets.go:26-122 | the same for any bytes with the layout of a payload, with the sequence number that follows |
| Packets.SequenceCounts | Godeps/_workspace/src/github.com/go-sql-driver/mysql/packets.go:105-106 | the sequence number counts packets modulo 256 |
| LongData.LongDataProgress | Godeps/_workspace/src/github.com/go-sql-driver/mysql/packets.go:709-712 | some number of rounds sends a whole argument if and only if the limit exceeds the command head |
| LongData.LongDataArrives | Godeps/_workspace/src/github.com/go-sql-driver/mysql/packets.go:692-741 | a server that follows the protocol receives exactly the argument |
| LongData.CommandHeadBytes | Godeps/_workspace/src/github.com/go-sql-driver/mysql/packets.go:715-726 | command 24, the statement modulo 2^32 and the parameter modulo 2^16, low bytes first |
| LongData.StepFits | Godeps/_workspace/src/github.com/go-sql-driver/mysql/packets.go:709-712 | every command fits the limit, and only the last one is shorter |
| LongData.Stmt.SendPart | Godeps/_workspace/src/github.com/go-sql-driver/mysql/packets.go:709-735 | one command carries the next part and leaves the rest of the array |
| LongData.Stmt.WriteCommandLongData | Godeps/_workspace/src/github.com/go-sql-driver/mysql/packets.go:692-741 | the wire gets the commands of the whole argument, or a prefix on failure |
| Listener.CountOfRun | Godeps/_workspace/src/github.com/facebookgo/grace/grace.go:106-147 | the wait group counts accepts in progress and open connections in every interleaving |
| Listener.NothingOpenAfterClose | Godeps/_workspace/src/github.com/facebookgo/grace/grace.go:85-104 | once a `Close` returned every accepted connection is closed |
| Listener.NoLateConnection | Godeps/_workspace/src/github.com/facebookgo/grace/grace.go:85-147 | after that no `Accept` hands one out |
| Listener.ReleasedOnce | Godeps/_workspace/src/github.com/facebookgo/grace/grace.go:74-77 | in every run and every continuation: a connection that gave its count back has no step that takes another |
| Listener.RefusedWhenClosed | Godeps/_workspace/src/github.com/facebookgo/grace/grace.go:112-124 | in every continuation no `Accept` that begins after a `Close` began reaches the inner listener |
| Listener.RefusedGivesBack | Godeps/_workspace/src/github.com/facebookgo/grace/grace.go:112-124 | a refused accept gives its count back |
| Listener.ClosingGivesBack | Godeps/_workspace/src/github.com/facebookgo/grace/grace.go:74-77 | in every run: closing a connection that has its count gives it back and changes nothing else |
| Listener.OpenListenerAccepts | Godeps/_workspace/src/github.com/facebookgo/grace/grace.go:106-147 | in every run: while nobody closed the listener an accept can hand out a connection, which counts |
| Listener.CloseMarks | Godeps/_workspace/src/github.com/facebookgo/grace/grace.go:85-97 | a `Close` marks the listener before it waits |
| Listener.CloseReturnsWhenDrained | Godeps/_workspace/src/github.com/facebookgo/grace/grace.go:98-104 | a waiting `Close` can return if and only if no accept is in progress and no connection open |
| Listener.RunKeeps | Godeps/_workspace/src/github.com/facebookgo/grace/grace.go:74-147 | the invariant of every run |
| InitPayment.SetPaymentConfig | pkg/service/payment/service.go:288-326 | one configuration row, or the kind of error |
| InitPayment.SetPaymentMetadata | pkg/service/payment/service.go:329-346 | one row for each entry, in whatever order the map is visited |
| InitPayment.InsertPayment | pkg/paymentd/payment/payment_sql.go:20-39 | one payment row with a new identifier, refused when the ident is in use |
| InitPayment.CreatePayment | pkg/service/payment/service.go:234-285 | all rows of the payment, or an error; a duplicate ident is reported only when it is in use |
| InitPayment.CreatePaymentToken | pkg/service/payment/service.go:574-592 | one token row |
| InitPayment.GroupConsistent | pkg/service/payment/service.go:257-275 | a committed payment keeps idents and identifiers unique |
| InitPayment.GroupContents | pkg/service/payment/service.go:234-346 | the committed rows are one payment row, one configuration row, one token row and one row for each metadata entry, and no others |
| InitPayment.Fill | pkg/service/api/v1/init_payment.go:582-653 | the work between begin and commit |
| InitPayment.Attempt | pkg/service/api/v1/init_payment.go:560-670 | one transaction: everything, nothing, or a retry, with its effect on open handles |
| InitPayment.InitPayment | pkg/service/api/v1/init_payment.go:550-676 | at most maxRetries transactions; success if and only if nothing but fewer lock errors than that occurred; success means exactly one committed transaction with all rows, anything else none; an ident in use is a conflict unless a step failed |
| Metadata.OverriddenNames | pkg/metadata/sql.go:17-48 | which names are read |
| Metadata.NewestWins | pkg/metadata/sql.go:17-29 | a selected row is one that nothing overrides |
| Metadata.Table.Insert | pkg/metadata/sql.go:109-124 | inserting a map overrides what was read before, in any order of its entries |
| Metadata.Table.ByPrimary | pkg/metadata/sql.go:31-48 | the selected rows, collected in a map, are the override of all rows |
| Metadata.TableReadsHistory | pkg/metadata/sql.go:17-124 | the table reads as the left-to-right override of all inserted maps |
| PaymentMetadata.SnapshotAfterWrite | pkg/paymentd/payment/payment_sql.go:195-279 | an insert replaces the snapshot, unless there was nothing to insert |
| PaymentMetadata.SnapshotReadsHistory | pkg/paymentd/payment/payment_sql.go:195-279 | the table reads as the last non-empty inserted map |
| PaymentMetadata.ReadMetadata | pkg/paymentd/payment/payment_sql.go:195-238 | the query and scan compute the snapshot |
| PaymentHandler.ReadConfig | pkg/paymentd/payment/payment_sql.go:65-78 | the configuration with the greatest timestamp is the last inserted |
| PaymentHandler.SetConfig | pkg/paymentd/payment/payment_sql.go:172-193 | a new configuration row becomes the current one of its payment only |
| PaymentHandler.SetMetadata | pkg/paymentd/payment/payment_sql.go:255-279 | the written map becomes the snapshot of its payment only |
| PaymentHandler.Payment.DetermineLocale | pkg/service/web/payment.go:425-452 | nothing when a locale is set, otherwise locale and the two language keys |
| PaymentHandler.Payment.DetermineEnv | pkg/service/web/payment.go:454-462 | the remote address, if it is not known yet |
| PaymentHandler.Payment.Apply | pkg/service/web/payment.go:309-317 | what one request changes, and which of it has to be written |
| PaymentHandler.RunKeepsKeys | pkg/service/web/payment.go:299-344 | no run touches a key that is not reserved, or a chosen locale or method |
| PaymentHandler.FirstVisit | pkg/service/web/payment.go:425-452 | a first request: its language header and tag under their keys, kept if there were any, and the tag or `en_US` as locale |
| PaymentHandler.EveryVisit | pkg/service/web/payment.go:454-462 | any request: the remote address that was first, and with a locale chosen before nothing else |
| PaymentHandler.FirstRequestDecides | pkg/service/web/payment.go:425-462 | after the first committed request metadata and locale never change again |
| Auth.Keychain.PushKey | pkg/service/auth.go:69-75 | the new key comes first |
| Auth.Keychain.BinKey | pkg/service/auth.go:113-122 | whatever was pushed before, the key that was pushed last; an error exactly when none was |
| Auth.NewestKeyMatches | pkg/service/auth.go:113-143 | a container sealed with the newest key is matched by that very key |
| Auth.Keychain.MatchKey | pkg/service/auth.go:126-143 | the first key that authenticates, and which error otherwise |
| Auth.MatchIsNewest | pkg/service/auth.go:126-143 | the match is authentic and no newer key is; none means no key is |
| Auth.MatchSurvivesRotation | pkg/service/auth.go:69-143 | pushing keys never loses a match |
| Auth.Authorization.CheckKey | pkg/service/auth.go:159-174 | authenticity is the equality of signature and mac |
| Auth.Authorization.Encode | pkg/service/auth.go:360-387 | a sealed container, or exactly which error |
| Auth.Authorization.Decode | pkg/service/auth.go:390-409 | succeeds exactly when the message opens, and adds the payload |
| Auth.Authorization.WriteTo | pkg/service/auth.go:269-288 | base 64 of the serialized fields |
| Auth.Authorization.ReadParts | pkg/service/auth.go:231-250 | the fields around the delimiter, however much each read finds at hand |
| Auth.Authorization.ReadFrom | pkg/service/auth.go:219-251 | the fields in the text, or the error with what was read before it |
| Auth.CtrTwice | pkg/service/auth.go:332-353 | counter mode undoes itself |
| Auth.SealedBytes | pkg/service/auth.go:325-387 | the bytes of a sealed container: 16 of the initialisation vector, then each packed byte combined with its byte of the key stream; the signature is that of timestamp, salt and these |
| Auth.OneRead | pkg/service/auth.go:236-243 | one read moves as many bytes as are at hand, wanted and left, and leaves what it does not fill |
| Auth.NearestIsNearest | pkg/service/auth.go:225-234 | a timestamp that does not fit becomes the nearest 64-bit number |
| Auth.SameMessage | pkg/service/auth.go:303-308 | two containers have one message exactly when the longer timestamp continues the shorter one with the bytes behind it |
| Auth.MessageDetermines | pkg/service/auth.go:303-308 | among timestamps of one length the message, and so the signature, stands for exactly one container |
| Auth.MessageLeavesTimestampOpen | pkg/service/auth.go:303-308 | two containers with different expiry and one message |
| Auth.OpenSealed | pkg/service/auth.go:325-409 | if the payload survives packing, the signing key opens the sealed container and authenticates it |
| Auth.ReadSerialized | pkg/service/auth.go:219-288 | a container read back has the fields that were written if and only if salt and signature are each at hand as a whole when they are read |
| Auth.SealedArrives | pkg/service/auth.go:47-409 | for every payload that survives packing: fields, a matching key and the payload survive transport and key rotation |
| Auth.PackingExists | pkg/service/auth.go:360-409 | for every payload there are functions of which this asks nothing impossible |
| Auth.DecodedIntoHeld | pkg/service/auth.go:390-409 | a container that decodes what was sealed ends with the sealed payload if and only if that names every entry it held |
| Auth.HeldEntryStays | pkg/service/auth.go:390-409 | an entry that was held survives the decoding of an empty payload |
| Base64.DecodeEncoded | pkg/service/auth.go:222-272 | section 4 of RFC 4648: decoding undoes encoding |
| Base64.ReadEncoded | pkg/service/auth.go:222-272 | likewise for a reader that skips line breaks |
| Base64.AlphabetOrder | pkg/service/auth.go:222-272 | table 1 of RFC 4648 |
| Base64.QuantumBits | pkg/service/auth.go:222-272 | four symbols have the bits of up to three bytes, the first ones highest, with padding for missing bytes |
| Base64.BreakAnywhere | pkg/service/auth.go:222-229 | a line break anywhere in a text changes nothing |
| Base64.DecodedLength | pkg/service/auth.go:222-229 | only whole quanta are read, with as many bytes as their padding leaves |

## Left out

- Decimal.Dec.Quo: scales are unbounded; the source computes with 32-bit scales, which gives the same shift exactly under the condition of `Decimal.QuotientShiftFits`.
- Decimal.Dec.Add: likewise, under the condition of `Decimal.AlignedShiftFits`.
- DecimalText.Scan: the `continue` of the source's loop is written as its guard, and the rune reader is a string.
- LongData.Stmt.WriteCommandLongData: only for limits above the command head, since otherwise the source's loop does not advance.
- Intent.CallDiscipline: workers send non-nil errors, as their interface asks, and the commit function is called once; a second call would close a closed channel.
- Server.PaymentServer.DoInit: rows without their links, nonces and bodies; a nonce is known exactly when a row exists.
- Server.PaymentServer.Settle: does not call the commit function of the intent, which is modelled in `Intent`; the authorization row of PayPal is a statement without content.
- LedgerTable.Table.Before: the ordering of the query is an insertion sort.
- InitPayment.CreatePaymentToken: a generated token is fresh, so regeneration on duplicates is not modelled.
- InitPayment.InitPayment: preparing and running a statement is one step, and a nonce and a signature are one check.
- Metadata.Table.Insert: every entry is stored under its own name, as the constructor of metadata maps makes them.
- PaymentHandler.SaveVisit: the choice of the payment method is a number of the request, and the method itself one statement.
- Auth.Authorization.ReadFrom: corrupt base 64 is reported before any field is read.
- Auth.Crypto: cryptographic strength, and the internals of hash, cipher, gzip, JSON and random numbers.
- HTTP routing, templates, cookies, logging, configuration, command line, and the text of responses.
- Provider callbacks, notifications, the Stripe driver and the OAuth client.
- The query that reads one metadata entry by name: its SQL is malformed in the source.
- `getPayment` of the PayPal driver, which nothing calls.
- The MySQL handshake, authentication, result sets, and date formats.
- Process restart and socket inheritance around the graceful listener.
