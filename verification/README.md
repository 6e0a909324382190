# A model of briefmail, with proofs

Briefmail is a small mail server. It takes mail over SMTP, keeps it in a relational database and a blob store, hands it
out over POP3, and relays mail for other servers from an outbound queue. This project models the parts of it that are
hard to get right, in four groups, and proves what they do on all inputs and over all runs.

**The bytes of a mail** (`Bytes`, `Lines`, `DotReader`, `DotWriter`, `DotCodec`, `Folding`, `FoldOptimality`, `Readers`,
`Storage`, `DataCommand`, `Mailman`, `EndToEnd`). A block is decoded from its dot-stuffed form, limited in size, given
its header fields, cached in memory or in a file, stored, and encoded again for retrieval. Each reader and writer is a
class with the fields of the original; its methods are proved against a function of the bytes alone, so nothing depends
on how the bytes are cut into calls.

**The stores and their users** (`Database`, `Addressbook`, `Mailman`, `Maildrop`, `Pop3`, `MailSystem`). The database is
a class over three tables with one method for each transaction. `MailSystem` puts deliveries, POP3 sessions, the queue
worker and cleaners side by side: each transaction, each blob operation and each use of the lock table is a step, and
the steps interleave in any order.

**The outbound queue** (`QueueAttempt`, `QueueProtocol`, `QueueOrder`). An attempt sorts the recipients of a mail, the schedule decides
when it is tried again, and a protocol of lock, busy flag and alarm sees to it that a worker is there when a row is due.

**The SMTP session** (`Smtp`). The commands form an automaton; the handlers are methods over the session's fields.

`Refinement` connects the methods with the step systems: the steps are the methods' own transactions and disk
operations. Deliveries, collections, attempts and each POP3 command, when nothing interrupts them, do what a certain run
of steps does, whatever fails on the way; what is proved of the step systems holds when the steps of several methods
interleave.

What comes from outside is a parameter: the clock, new ids, answers of remote servers, what hooks make of what they read, results of the
password check, failures of the database, how much room there is on a disk and which of its operations fail, and the
sizes of the portions in which data is read.

## Where the code does something else than one would expect

The model follows the code. In these places the obvious claim is false; there is a lemma with the exact condition or
with an input that shows it.

- A confirmed `DATA` keeps the recipients of the envelope, as do `HELO`, `EHLO` and `MAIL`. The next mail of the session
  goes to the recipients of the mail before as well (`Smtp.SecondMailGoesToFirstRecipients`,
  `Smtp.MailGoesWhereItShouldExactly`).
- The limit of 100 recipients admits 101 (`Smtp.RecipientsUpTo`).
- The dot encoder forgets a CR that follows a CR: text comes back unchanged exactly if each LF follows an odd number of
  CRs and the text ends with a line end (`DotCodec.Transparent`).
- A connection that ends within a block is taken for the end of the block (`DotCodec.CutOffGoesUnnoticed`).
- A header field with an empty value gets no line end (`Folding.HeaderEndsLine`).
- A line with a character of several bytes may exceed the limit although it could be folded
  (`Folding.OverlongExactly`, `DataCommand.AccentMissesLimit`).
- A mail that is collected between its mail row and its entries is lost although its delivery succeeds
  (`MailSystem.RacesExactly`, `MailSystem.DanglingExactly`, `MailSystem.RaceLosesMail`).
- Two recipients that share a mailbox make a delivery fail after the mail row was added
  (`Mailman.DeliverySucceedsExactly`).
- A POP3 login whose snapshot fails never releases its lock (`MailSystem.LeaksExactly`, `MailSystem.LeakIsForever`,
  `Pop3.LeaksExactly`).
- A recipient that is refused while another one is put off is forgotten: the mail leaves the queue without it
  (`QueueAttempt.RefusedIsForgotten`, `QueueAttempt.LeavesServedExactly`).
- A queue row of which a recipient is refused while none is put off stays in the queue as it is, due at once, and the
  other recipients get the mail with each attempt; so does a row whose mail was collected, or whose change fails
  (`QueueAttempt.RowStaysExactly`, `QueueAttempt.StaysForeverExactly`, `QueueAttempt.StuckRowRepeats`,
  `QueueAttempt.DanglingStaysForever`).
- Such a row keeps every row with a later date from being attempted (`QueueOrder.StuckRowStarvesLaterRows`,
  `QueueOrder.RowIsReachedInTurn`, `Refinement.FateIsSameExactly`).
- A mail that a server refuses after it was sent counts as delivered (`QueueAttempt.RefusedMailCountsAsDelivered`).
- A failed read of the queue halts the queue worker for good, and nothing else does (`QueueProtocol.FailedReadHalts`,
  `QueueProtocol.FailureHaltsForGood`, `QueueProtocol.QueueHaltsExactly`).
- If a blob can be read only in part, RETR ends the part like a whole mail (`EndToEnd.Transmit`).
- An error while the rows of a listing are fetched makes the listing short, and no one is told (`Database.DB.Entries`,
  `Database.SnapshotIsWholeExactly`).

## Model

| member | source | states |
|---|---|---|
| Lines.LineReadsBack | internal/textproto/reader.go:43-53 | A line written with CRLF is read back whole, and what follows it stays in place. |
| Lines.BareLineReadsBack | internal/textproto/reader.go:43-53 | So is a line that ends in a bare LF, unless a CR stands in front of it. |
| Lines.LastLineReadsBack | internal/textproto/reader.go:43-53 | What stands behind the last line end is a line too; a CR at its end is lost. |
| Lines.LineReader.ReadLine | internal/textproto/reader.go:43-53 | A read takes exactly the next line off the input; a broken connection is told from one that just ends. |
| DotDecoding.DotReader.FetchLine | internal/textproto/dot.go:40-57 | Fetching a line does not change the text that is left; it stops, with the input right behind the block, exactly if none is left. |
| DotDecoding.DotReader.ReadByte | internal/textproto/dot.go:38-75 | Each call hands out the first byte of the text that is left in the block, or the error that ends it. |
| DotDecoding.DotReader.Read | internal/textproto/dot.go:77-95 | For a buffer of any size: the bytes stored are the next ones of the decoded text, a short read means the text is used up, and at end of file the input stands right behind the block. |
| DotEncoding.DotWriter.WriteOne | internal/textproto/dot.go:109-136 | One byte changes state and output as the encoding function of one byte has it. |
| DotEncoding.DotWriter.Write | internal/textproto/dot.go:102-142 | State and output after a call are the encoding of its bytes from the state before. |
| DotEncoding.EncodeAppends | internal/textproto/dot.go:102-142 | Writing in two portions is writing both at once, so chunking does not matter. |
| DotEncoding.DotWriter.Close | internal/textproto/dot.go:144-154 | Closing ends an unfinished line and writes the dot line. |
| DotCodec.EncodeIsStuffedLines | internal/textproto/dot.go:102-154 | The byte-wise encoder computes: each line with its line end and, if it starts with a dot, one more dot; then the dot line. |
| DotCodec.OddCRsCounts | internal/textproto/dot.go:121-131 | What the encoder remembers of the CRs in front of a LF is the parity of their number. |
| DotCodec.EncodedInBytes | internal/textproto/dot.go:102-154 | Told in bytes: a line with its CRLF is written as it is, behind a second dot if it starts with one, and the end is a line of just a dot. |
| DotCodec.DecodedInBytes | internal/textproto/dot.go:38-75 | Told in bytes: a received line loses a dot at its beginning unless it is just a dot, which ends the block with what follows untouched; every other line is taken as it is. |
| DotCodec.RoundTrip | internal/textproto/dot.go:38-154 | On arbitrary bytes: decoding an encoded text, with anything behind it, gives its normal form and leaves just what is behind it. |
| DotCodec.NormFixes | internal/textproto/dot.go:119-131 | The normal form of a text is the text itself if and only if each LF follows an odd run of CRs and the text ends with a line end. |
| DotCodec.NormIsCanonical | internal/textproto/dot.go:119-153 | Every normal form has this shape. |
| DotCodec.NormIdempotent | internal/textproto/dot.go:38-154 | A text that went through the codec once goes through it unchanged ever after. |
| DotCodec.Transparent | internal/textproto/dot.go:38-154 | Dot transparency (section 4.5.2 of RFC 5321) holds of a text if and only if it is canonical. |
| DotCodec.DecodedIsCanonical | internal/textproto/dot.go:38-75 | The text decoded from any received block is canonical if and only if none of its lines ends in an odd number of CRs. |
| DotCodec.CutOffGoesUnnoticed | internal/textproto/dot.go:41-44 | A block cut off by the end of the connection decodes like the block completed with a line end and the dot line. |
| Folding.FindFoldPoint | internal/model/body.go:62-83 | The loop over characters finds the fold point of the specification. |
| Folding.FoldPointIsBest | internal/model/body.go:62-83 | For any bytes: the fold point is the last blank up to the first character start at or behind the limit, or else the first blank behind it, or else the end. |
| Folding.CharacterIsConsumed | internal/model/body.go:71 | The range loop steps over every character encoded in UTF-8 (section 3 of RFC 3629) at once. |
| Folding.OnlyCharactersAreConsumed | internal/model/body.go:71 | It steps over more than one byte only if these are the encoding of a character. |
| Folding.AsciiFoldPoint | internal/model/body.go:62-83 | In ASCII lines: the last blank within the limit, or else the first blank at all, or else the end. |
| Folding.OverlongExactly | internal/model/body.go:71-79 | With a usable blank, the limit is missed if and only if a character straddles it and is followed by a blank or the end; then by at most three bytes. |
| Folding.StraddledLimit | internal/model/body.go:71-79 | It is missed by one byte whenever a character of two bytes straddles it and a blank follows, whatever comes before. |
| DataCommand.AccentMissesLimit | internal/smtp/handler.go:310-313 | Trace fields for which it is missed: the sender's address ends there in an accented letter. |
| Folding.PiecesMakeValue | internal/model/body.go:47-55 | Folding terminates with non-empty pieces that make up the value; all but the first start with a blank. |
| Folding.OneLineInBytes | internal/model/body.go:27-60 | A field of at most 78 bytes, or whose value has no space or tab to fold at, is key, colon, space, value and CRLF. |
| Folding.LinesFitInNumbers | internal/model/body.go:27-83 | Every line of an ASCII field has at most 78 bytes, unless its part of the value has no space or tab behind its first byte. |
| Folding.HeaderEndsLine | internal/model/body.go:47-55 | A field ends with a line end if and only if its value is not empty. |
| Folding.FieldUnfoldsExactly | internal/model/body.go:27-60 | Unfolding (section 2.2.3 of RFC 2822) a field gives back key and value if and only if none of its physical lines holds a line end in front of a blank. |
| Folding.FoldedFieldUnfolds | internal/model/body.go:27-60 | In particular it does for all keys and values without folds of their own. |
| FoldOptimality.PiecesAreLegal | internal/model/body.go:47-83 | In ASCII values every line keeps to 78 bytes unless it has no blank to fold at, and starts with a blank unless it is the first. |
| FoldOptimality.GreedyStaysAhead | internal/model/body.go:47-83 | From the same or a later start, greedy folding needs no more lines than any legal folding. |
| FoldOptimality.GreedyIsOptimal | internal/model/body.go:27-83 | For ASCII values, no folding at blanks that keeps to the limit where it can has fewer lines. |
| Readers.LimitedReader.Read | internal/smtp/limit.go:32-44 | Through the limiter, for any buffer sizes: the first n bytes of the block, then the limit error if there are n or more, and nothing in the block is skipped. |
| Readers.Body.Prepend | internal/model/body.go:27-60 | The folded field comes in front of all that is pending, and the number returned is its length. |
| Readers.Body.Read | internal/model/body.go:23-60 | Reads hand out the prepended fields, newest first, and then the inner reader, in portions of any size. |
| Readers.StoredReader.Read | internal/storage/cache.go:109-119 | A reader over stored bytes hands them out in order from its position. |
| Storage.CopyUpTo | internal/storage/cache.go:60-71 | Copying into memory stops at the limit or at the end of the body, having taken exactly the bytes in between. |
| Storage.CopyToFile | internal/storage/blobs.go:63-69 | The file holds exactly the bytes of the body up to its end or failure, or as many as the disk has room for. |
| Storage.Cache.Write | internal/storage/cache.go:60-89 | For every memory limit and every chunking the entry holds exactly the bytes of the body, in memory if and only if they are fewer than the limit; it fails if and only if the body does or there is no room on the disk, and leaves a file behind only if that cannot be removed. |
| Storage.CacheEntry.Reader | internal/storage/cache.go:109-119 | Every reader starts at the first byte of the same content, however far the readers before it got; there is none if and only if a file cannot be rewound. |
| Storage.CacheEntry.Release | internal/storage/cache.go:97-107 | The file of the entry, and nothing else, is removed, unless it cannot be closed or removed. |
| Storage.Blobs.Write | internal/storage/blobs.go:55-72 | It succeeds if and only if the body ends well and the disk creates, holds and closes the file; the blob is then the whole body and the size its length; what stays otherwise is what could not be removed, or a whole blob that could not be closed. |
| Storage.Blobs.Delete | internal/storage/blobs.go:74-76 | Removes this blob, or fails without effect. |
| Storage.Blobs.ReadOffset | internal/storage/blobs.go:78-89 | The reader yields the blob from the offset on; there is none if and only if there is no blob or it cannot be opened or skipped to the offset. |
| DataCommand.PrependsInOrder | internal/smtp/handler.go:310-317 | All the fields are in front of the text, each once, the one prepended last coming first. |
| DataCommand.PrependAllAppends | internal/smtp/handler.go:310-317 | What follows a text follows it still, whole, behind all the fields that are prepended to it. |
| DataCommand.Fetch | internal/smtp/handler.go:300-333 | As long as there is room, what DATA makes of a block depends on its decoded length L, the limit M and the end of the connection alone: L < M+1024 is cached, L < 2M+1024 answered with 552, longer blocks end the session; in the first two cases the input then stands right behind the block. Without room the session ends. |
| DataCommand.Drain | internal/smtp/handler.go:321-330 | The rest of a block is discarded completely if and only if it is shorter than the limit. |
| DataCommand.VerdictInNumbers | internal/smtp/handler.go:305-333 | For a block of L bytes and a limit M: accepted if and only if there is no limit or L < M+1024, answered with 552 if and only if M+1024 <= L < 2M+1024, and ended with the session if it is longer or the connection fails within it. |
| DataCommand.CheckHooks | internal/smtp/handler.go:337-355 | Each hook judges the mail from its first byte on, however far the hooks before it read; the first that fails or rejects decides, else all their fields are collected in order; a file that cannot be rewound counts as a failure. |
| DataCommand.JudgedAt | internal/smtp/handler.go:339-348 | Each hook is given the first bytes of the mail, as many as it reads. |
| DataCommand.AllAgree | internal/smtp/handler.go:337-355 | If no hook fails or rejects, the fields are those of all of them, in order. |
| DataCommand.FirstRefusalDecides | internal/smtp/handler.go:345-352 | Else the first hook that fails or rejects decides. |
| DataCommand.RefusesExactly | internal/smtp/handler.go:319-352 | A block is refused, and the session kept, if and only if it is too long but not endless, or it was taken and can be read again and the first hook that does not agree rejects it; nothing is stored then. |
| DataCommand.Data | internal/smtp/handler.go:278-377 | The whole command, for all chunkings, memory limits and failures: outcome, tables, blobs and wake-up are those of the specification, nothing that can be removed stays in the cache, and the session goes on right behind the block. |
| EndToEnd.Transmit | internal/pop3/handler.go:312-325 | RETR writes the encoding of the blob, copied in portions of any size; if reading fails after some bytes it writes the encoding of these. |
| EndToEnd.HeaderIsCanonical | internal/model/body.go:27-60 | A field whose key and value have no CR or LF, and whose value is not empty, is canonical text. |
| EndToEnd.PrependAllCanonical | internal/smtp/handler.go:316-367 | Prepending such fields changes nothing about whether a text survives retrieval. |
| EndToEnd.EndToEnd | internal/smtp/handler.go:300-369 | From the received block to the retrieved one: the mail is retrieved byte for byte as it was stored if and only if no received line ends in an odd number of CRs; the blob is the field `Return-Path: <addr>`, the fields of the data hooks, those of the sender hooks, in each group the newest first, the field `Received`, and the decoded text. |
| Addressbook.Book.Unknown | internal/addressbook/addressbook.go:62-87 | An address has no entry if and only if its domain is ours and neither it nor a wildcard for its user or domain is listed. |
| Addressbook.Book.FirstKnown | internal/addressbook/addressbook.go:62-87 | A foreign domain gives the address itself; else the first that is listed counts: the user in the domain, `*` in the domain, the user in `*`, `*` in `*`. |
| Database.DB.AddMail | internal/storage/db.go:231-243 | Adds the row, or fails without effect if there is one with this id. |
| Database.DB.AddEntries | internal/storage/db.go:289-313 | Adds the entries of a mail all together or not at all. |
| Database.AddEntriesExactly | internal/storage/db.go:289-313 | That succeeds if and only if the mailboxes are distinct and have no entry for the mail, and then adds just these. |
| Database.DB.Entries | internal/storage/db.go:250-287 | The listing holds the newest mails of the mailbox that have a row, newest first, each once: as many as there are, but at most 1000 and no more than can be fetched; the total is the sum of their sizes. |
| Database.SnapshotIsWholeExactly | internal/storage/db.go:263-285 | What is fetched is the whole listing if and only if fetching does not break off before the last row that is due. |
| Database.ListingInNumbers | internal/storage/db.go:250-287 | A whole listing has mails of the mailbox with their sizes, dates descending; it has at most 1000, no mail left out is newer than one listed, and if there are fewer than 1000 none is left out. |
| Database.DB.DeleteEntries | internal/storage/db.go:315-338 | Removes exactly the entries of these mails in this mailbox. |
| Database.DB.PeekQueue | internal/storage/db.go:347-370 | A row none of the others has an earlier date than, or none if and only if the queue is empty. |
| Database.DB.UpdateQueue | internal/storage/db.go:391-409 | Rewrites date and recipients and counts the attempt. |
| Database.DB.DeleteOrphans | internal/storage/db.go:423-479 | Deletes, and reports, exactly the mails without entries and queue row. |
| Database.CollectingIsComplete | internal/storage/db.go:423-479 | After one pass nothing is left to collect, and nothing referenced is gone. |
| Mailman.RouteConserves | internal/delivery/mailman.go:45-63 | Routing succeeds if and only if every recipient is known; each mailbox and each outbound address is then listed as often as there are recipients with it. |
| Mailman.RouteKeepsOrder | internal/delivery/mailman.go:50-63 | Mailboxes and outbound addresses are in the order of the recipients they come from. |
| Mailman.Postman.RouteAll | internal/delivery/mailman.go:50-63 | The loop over the recipients computes this routing. |
| Mailman.DeliverySucceedsExactly | internal/delivery/mailman.go:33-87 | With a new id, a delivery succeeds if and only if the blob can be stored, no transaction fails, every recipient is known and no two share a mailbox; it then adds exactly the mail, its entries and its queue row. |
| Mailman.DeliveryLeavesExactly | internal/delivery/mailman.go:33-87 | Whatever fails, the tables are told: as before if the blob or the mail row is not stored; with just the row if a recipient is unknown or the entries cannot be inserted; with row and entries if the queue row cannot. |
| Mailman.BlobLeftExactly | internal/delivery/mailman.go:33-43 | Whatever fails, the blobs are told: the whole blob, unless it cannot be created, or does not fit, or its row is refused; in the last two cases what is there of it stays only if it cannot be removed. |
| Mailman.DeliveryOnlyAdds | internal/delivery/mailman.go:33-87 | Whether it succeeds or not, a delivery takes no row away and changes none. |
| Mailman.OffsetSkipsReturnPath | internal/delivery/mailman.go:34-40 | The stored size is that of the blob, offset plus text; from the stored offset on the blob is the text without the return path; date and sender are those of the envelope. |
| Mailman.ReturnPathInBytes | internal/delivery/mailman.go:34 | If the address fits into the line or has no blanks, the return path is `Return-Path: <addr>` and CRLF. |
| Mailman.Postman.Deliver | internal/delivery/mailman.go:33-87 | Tables, blobs, success and wake-up after a delivery, for every failure of the disk and the database on the way. |
| Mailman.Clean | internal/storage/cleaner.go:30-41 | The rows of exactly the orphans are removed, and those of their blobs that can be, or nothing if the transaction fails. |
| Maildrop.StepsAreAccounted | internal/pop3/handler.go:332-396 | DELE and RSET, and USER and PASS before them, keep marks within the snapshot, and the totals the sums of all sizes and of the marked sizes. |
| Maildrop.ListingAddsUp | internal/pop3/handler.go:175-195 | Count and octets in the header of a listing are those of the lines below it. |
| Maildrop.LinesAreTheUnmarked | internal/pop3/handler.go:184-193 | A line is in the listing if and only if it gives number and size of a message without a mark. |
| Maildrop.LinesIncrease | internal/pop3/handler.go:183-193 | The numbers of the lines increase. |
| Maildrop.CollectMarked | internal/pop3/handler.go:126-130 | The mails to be deleted are those of the marks, in whatever order the marks are visited. |
| Maildrop.QuitDeletesTheMarked | internal/pop3/handler.go:117-141 | While the entries of a snapshot are there, deleting the marked mails removes an entry if and only if it is in this mailbox and its message is marked; later mails stay. |
| Pop3.Locks.Lock | internal/pop3/lock.go:31-41 | A key is locked if and only if it was free. |
| Pop3.Locks.Unlock | internal/pop3/lock.go:43-48 | The key, and no other, becomes free. |
| Pop3.Session.User | internal/pop3/handler.go:42-61 | The name is taken in any state before the transaction, and only if there is just one. |
| Pop3.Session.Pass | internal/pop3/handler.go:66-109 | A right password for the name of USER on a free maildrop gives what can be fetched of its listing, and the lock; every other case, and which of them leaves the lock behind. |
| Pop3.Session.List | internal/pop3/handler.go:164-218 | LIST with any arguments: the listing, or the line for one message, whose number is counted from 0. |
| Pop3.Session.ListAll | internal/pop3/handler.go:164-196 | Header and lines of the listing. |
| Pop3.Session.Select | internal/pop3/handler.go:284-310 | A message number is accepted if and only if it is that of a message of the snapshot without a mark. |
| Pop3.Session.Dele | internal/pop3/handler.go:332-365 | Marks such a message and adds its size to that of the marked, or changes nothing. |
| Pop3.Session.Rset | internal/pop3/handler.go:381-396 | Takes all marks back. |
| Pop3.Session.Retr | internal/pop3/handler.go:280-327 | Sends the encoded blob of a message without a mark, or what can be read of it; it fails if and only if there is no blob or reading fails. |
| Pop3.Session.Quit | internal/pop3/handler.go:114-143 | In the transaction the marked entries are deleted and orphans are collected, as far as the database and the disk allow; before it nothing happens. |
| Pop3.QuitLeavesExactly | internal/pop3/handler.go:114-143 | After a QUIT whose deletion succeeds: all entries but those of the marked messages in this mailbox; of the mails, if the collection succeeds, just those still in a mailbox or queued; of the blobs all but those of collected mails that can be removed. |
| Pop3.RetrSendsTheMessage | internal/pop3/handler.go:280-327 | RETR k sends the blob of the kth message of the snapshot if that has no mark; there is no answer if it has, or if there is no such message or no blob; the session does not change. |
| Pop3.RetrSendsAPart | internal/pop3/handler.go:312-325 | If the disk fails while that blob is read, its first bytes are sent, and the session ends. |
| Pop3.RetrInSession | internal/pop3/handler.go:280-327 | In every session in its transaction, for a message without a DELE since the last RSET: what is written for RETR decodes to the normal form of the blob of this message in the listing taken at login. |
| Pop3.RetrMatchesTheListing | internal/pop3/handler.go:164-327 | As long as each mail row has its blob, of its size, every message that is listed can be retrieved, and has as many bytes as its line says. |
| Pop3.ListTellsTheSize | internal/pop3/handler.go:164-218 | LIST k gives the size of the kth message, but the number k-1; LIST gives count, octets and lines. |
| Pop3.CommandsHaveTheirState | internal/pop3/handler.go:42-396 | Outside of the transaction its commands are out of order and change nothing; so are USER and PASS in it, and PASS before USER. |
| Pop3.OpensExactly | internal/pop3/handler.go:66-109 | A command opens a maildrop if and only if it is a PASS after USER with a right password for that name, the maildrop is free and can be listed; its snapshot then is the listing, without marks. |
| Pop3.LastUserCounts | internal/pop3/handler.go:42-84 | In every session that waits for PASS, the name is that of the last USER with one argument. |
| Pop3.Dispatch | internal/pop3/proto.go:108-143 | For each command, the view of the session, the result and the answer are those of the step of this command, the entries after PASS are what could be fetched, and locks, tables and blobs follow from it. |
| Pop3.ExecAppends | internal/pop3/proto.go:108-143 | A session that goes on takes the next command from where it stands; one that has ended takes none. |
| Pop3.DeletesExactly | internal/pop3/handler.go:117-141 | A session deletes mails if and only if one of its commands is a QUIT that is reached in the transaction and whose deletion succeeds; one that ends without QUIT deletes none (section 6 of RFC 1939). |
| Pop3.MarksExactly | internal/pop3/handler.go:332-396 | At any time in the transaction a message is marked if and only if there was a DELE of it in the transaction and no RSET after that. |
| Pop3.LeaksExactly | internal/pop3/handler.go:93-100 | A session leaves its lock behind if and only if it reaches a PASS with a right password for a free maildrop of which no listing can be had. |
| Pop3.Handle | internal/pop3/proto.go:80-143 | Over any commands: view, end and answers are those of the run of the commands on the listing taken at login, which is whole unless fetching broke off in the PASS that opened the maildrop; exactly the marked mails are deleted if the run ends with a QUIT that succeeds, else nothing; the lock is held by no one else meanwhile and is free afterwards, unless the snapshot failed. |
| MailSystem.StoreKept | internal/delivery/mailman.go:33-87 | Every step of deliveries, cleaners, the queue worker and sessions keeps rows, blobs and deliveries together. |
| MailSystem.TalkKeepsLocks | internal/pop3/lock.go:31-48 | Every step of a session keeps each lock with exactly one owner. |
| MailSystem.SnapshotsKept | internal/pop3/handler.go:84-105 | Every step keeps all mails of all snapshots. |
| MailSystem.RunKeepsInv | internal/storage/db.go:423-479 | Every run keeps all three. |
| MailSystem.SnapshotSafety | internal/pop3/handler.go:84-141 | In every reachable state, each message that a session in its transaction can name still has its entry, its row, and a blob of the size in its listing, so RETR finds it. |
| MailSystem.QuitIsExact | internal/pop3/handler.go:117-134 | In every reachable state, QUIT removes exactly the marked messages of its snapshot from its mailbox, and nothing else. |
| MailSystem.LeaksExactly | internal/pop3/handler.go:93-100 | A lock is leaked if and only if some step of the run is the failure of a session to take its snapshot of the maildrop that it has locked. |
| MailSystem.MaildropExclusion | internal/pop3/lock.go:31-48 | No two sessions hold the same maildrop, and one is locked if and only if a session holds it or failed to take its snapshot of it; if no snapshot fails in the run, the table is exactly the maildrops held (section 4 of RFC 1939). |
| MailSystem.LeakIsForever | internal/pop3/handler.go:93-100 | Once a snapshot of a maildrop failed in a run, the maildrop can never be opened again. |
| MailSystem.StoreIsConsistent | internal/storage/cleaner.go:30-41 | Every mail row has its blob, of its size; an entry or queue row lacks its mail if and only if the mail was collected during its delivery; blobs without rows are those in work or not deletable. |
| MailSystem.SpillsExactly | internal/storage/cleaner.go:36-38 | Blobs without rows are left behind for good if and only if some step of the run failed to remove one. |
| MailSystem.QuietStoreHasNoLeftovers | internal/storage/cleaner.go:30-41 | When nothing is in work, blobs and rows have the same ids if and only if no step of the run failed to remove a blob. |
| MailSystem.CollectsExactlyOrphans | internal/storage/db.go:423-479 | A collection keeps a mail if and only if it is in a mailbox or queued, and marks exactly the others' blobs for removal. |
| MailSystem.CollectHitsTheRisky | internal/storage/db.go:423-479 | A collection takes a mail away from its delivery if and only if its row is inserted and neither entries nor a queue row hold it. |
| MailSystem.RacesExactly | internal/delivery/mailman.go:40-77 | In every run, a mail is collected during its delivery if and only if some collection happens after its mail row was inserted and before its entries were, or after them when they are gone again or there are none, and before the last insert. |
| MailSystem.DanglingExactly | internal/delivery/mailman.go:40-77 | In every reachable state an entry or a queue row is without its mail if and only if there was such a collection. |
| MailSystem.UndisturbedRunsKeepReferences | internal/delivery/mailman.go:40-77 | If no collection happens between the mail row of a delivery and its last insert, every entry and queue row has its mail row and its blob. |
| MailSystem.CalmRunsKeepReferences | internal/delivery/mailman.go:40-77 | So they have if no collection hits a mail at risk. |
| MailSystem.GoneForGood | internal/delivery/mailman.go:40-77 | A mail that was collected during its delivery, or that a queue row is missing, never comes back. |
| MailSystem.RaceLosesMail | internal/delivery/mailman.go:40-74 | A run in which a delivery succeeds and its mail is gone. |
| QueueAttempt.Client.Send | internal/delivery/queue.go:272-315 | If the session completes, each recipient is filed under the answer it got and the server received the whole rest of the reader. |
| QueueAttempt.RefusedMailCountsAsDelivered | internal/delivery/queue.go:306-314 | The server's reply to the mail itself makes no difference. |
| QueueAttempt.PickExactly | internal/delivery/queue.go:282-300 | Each recipient is filed under an answer as often as the server gave that answer to it. |
| QueueAttempt.ContactExactly | internal/delivery/queue.go:140-168 | If the blob is there and opened, the server greets, answers each recipient, lets the mail come and takes it, every recipient is filed under its answer; in every other case all recipients of the domain stay pending. |
| QueueAttempt.ContactConserves | internal/delivery/queue.go:140-168 | For any behaviour of a domain's servers, every recipient of the domain is delivered, undeliverable or pending, once. |
| QueueAttempt.AddressesByDomain | internal/delivery/queue.go:215-223 | The groups are exactly the non-empty sublists of equal domains, in order. |
| QueueAttempt.InDomainKeepsOrder | internal/delivery/queue.go:215-223 | A group has the recipients of its domain, each as often as there are, in the order in which they are among all. |
| QueueAttempt.AttemptAll | internal/delivery/queue.go:134-168 | For any order of the domains, each address ends up where the session of its own domain put it, and servers get the blob from the offset on. |
| QueueAttempt.AttemptConserves | internal/delivery/queue.go:134-182 | Delivered, undeliverable and pending recipients together are the recipients of the row, as a multiset; the pending ones are among them. |
| QueueAttempt.Do | internal/delivery/queue.go:120-196 | The row after an attempt, for all answers and failures, a missing mail and a failing transaction included; no other row and no other table changes. |
| QueueAttempt.BudgetInMinutes | internal/delivery/queue.go:198-213 | The pauses in minutes: four of 10, then five of 30, then twenty of 60; so the sum after any number of attempts. |
| QueueAttempt.RetriesAreBounded | internal/delivery/queue.go:170-213 | Over any number of attempts: attempts never exceed 29, the time waited is in minutes just the sum of the pauses of the attempts counted, so at most 1390, and only original recipients are tried again. |
| QueueAttempt.AttemptLeaves | internal/delivery/queue.go:134-168 | Someone is pending after an attempt if and only if some domain's session does not complete or puts a recipient off; someone is undeliverable if and only if a session that completes refuses one. |
| QueueAttempt.RowLeavesExactly | internal/delivery/queue.go:128-195 | An attempt deletes the row if and only if its mail is there, the transaction succeeds, and no server refuses or puts off a recipient still in it, that is, all these got the mail. |
| QueueAttempt.RowStaysExactly | internal/delivery/queue.go:128-195 | An attempt leaves the row as it is, due at once, if and only if its mail is missing, or the transaction fails, or some recipient is refused and none put off, or, after the 29th attempt, some recipient is refused or put off. |
| QueueAttempt.StaysForeverExactly | internal/delivery/queue.go:128-195 | After any number of attempts the row is as it was if and only if it was so in each of them. |
| QueueAttempt.DanglingStaysForever | internal/delivery/queue.go:128-132 | A row whose mail is gone stays through any number of attempts, and none of them delivers anything. |
| QueueAttempt.RefusedStaysForever | internal/delivery/queue.go:184-195 | While some server refuses a recipient and none puts one off, the row stays through any number of attempts. |
| QueueAttempt.StuckRowRepeats | internal/delivery/queue.go:140-195 | While a row is stuck or its change fails, the recipients that are taken get the mail with each attempt. |
| QueueAttempt.RecipientsAreAccountedFor | internal/delivery/queue.go:134-195 | Over any number of attempts: the recipients served, those refused in attempts that rescheduled the row, and those still in it are together the original recipients, as a multiset. |
| QueueAttempt.LeavesServedExactly | internal/delivery/queue.go:170-195 | A mail that left the queue was delivered to all its recipients if and only if no server refused one in an attempt that rescheduled it. |
| QueueAttempt.RefusedIsForgotten | internal/delivery/queue.go:170-174 | A mail of two recipients that leaves the queue though the first never got it. |
| QueueProtocol.QueueWorker.WakeUp | internal/delivery/queue.go:51-64 | Stops and forgets the alarm, and starts a worker if none is busy. |
| QueueProtocol.QueueWorker.Next | internal/delivery/queue.go:70-85 | The row with the earliest date if it is due, else the time until then. |
| QueueProtocol.QueueWorker.Turn | internal/delivery/queue.go:91-109 | Under the lock, the worker goes on to a row that is due, or ends, with an alarm for the earliest row if there is one, late by the time it took to arm it. |
| QueueProtocol.TurnIsPeekAndDecide | internal/delivery/queue.go:91-109 | A turn is the two steps of the protocol. |
| QueueProtocol.RunKeepsInv | internal/delivery/queue.go:51-118 | Every run of producers, timers, clock and worker keeps the invariant of the protocol. |
| QueueProtocol.AtMostOneWorker | internal/delivery/queue.go:51-118 | At most one worker runs, busy tells whether one does, and while it does no alarm is set. |
| QueueProtocol.NoLostWakeUp | internal/delivery/queue.go:51-118 | In every reachable state with the lock free, for every row the worker is running, or its producer or a fired timer can call WakeUp, or the alarm is armed for no later than its date and the time it took to arm it. |
| QueueProtocol.DueRowIsTakenUp | internal/delivery/queue.go:51-118 | When a row has been due for that time, the worker is running or a call of WakeUp can happen at once. |
| QueueProtocol.WorkerServesTheHead | internal/delivery/queue.go:87-116 | A worker that gets the lock attempts the earliest row if it is due, and else leaves an alarm for exactly its date. |
| QueueProtocol.FailedReadHalts | internal/delivery/queue.go:91-99 | From any reachable state, one failed read of the queue halts the protocol. |
| QueueProtocol.FailureHaltsForGood | internal/delivery/queue.go:91-99 | In a halted protocol only rows are added, time passes and timers fire, for ever. |
| QueueProtocol.QueueHaltsExactly | internal/delivery/queue.go:87-118 | In every run the protocol has halted if and only if some read of the queue failed; otherwise a lock that is taken is given back by the next step of its worker. |
| QueueOrder.StuckRowStarvesLaterRows | internal/delivery/queue.go:70-115 | In every run in which the attempts of a row leave it as it is, no row with a later date is ever attempted, unless a worker was at it from the beginning. |
| QueueOrder.TurnComes | internal/delivery/queue.go:70-115 | With each attempt that deletes its row or puts it behind a certain one, one row less is before that one. |
| QueueOrder.RowIsReachedInTurn | internal/delivery/queue.go:70-115 | A row is attempted before more attempts end than there were rows before it, if all of them do so and no row is added meanwhile. |
| Smtp.SessionsAreAuthorised | internal/smtp/handler.go:150-271 | Over any commands: a sender set for a mail is authorised, DATA is possible only with recipients, there are at most 101, and each is known and, if it is elsewhere, the user is authenticated. |
| Smtp.SenderIsOwn | internal/smtp/handler.go:150-190 | In every session that has begun a mail, the sender is set; if a user is logged in, the entry of the sender is that of the mailbox of this user, and otherwise it is an entry that is not local. |
| Smtp.MailIsConfirmedExactly | internal/smtp/handler.go:143-225 | MAIL is confirmed if and only if it comes after HELO or MAIL, the sender is the user's own or, without a login, not ours, the size is within the limit, and all hooks agree; then, and only then, sender and fields are set. |
| Smtp.RcptIsConfirmedExactly | internal/smtp/handler.go:230-273 | RCPT is confirmed if and only if a mail is begun, there are at most 100 recipients, the address is known and, without a login, not elsewhere; then, and only then, the recipient is added. |
| Smtp.OtherCommandsExactly | internal/smtp/handler.go:48-506 | What HELO, RSET, DATA, AUTH and the others need, what they change and what they leave. |
| Smtp.ComplainsExactly | internal/smtp/proto.go:131-152 | The loop complains, and goes on, if and only if a command is out of order or its argument malformed. |
| Smtp.ClosesExactly | internal/smtp/proto.go:131-155 | A command ends the session if and only if it is QUIT or fails with another error. |
| Smtp.UserIsLastLogin | internal/smtp/handler.go:409-506 | In every session, the user is that of the last AUTH that was granted, or none if none was. |
| Smtp.RecipientsUpTo | internal/smtp/handler.go:242-269 | Of any addresses, those that may be sent to are added in order until there are 101. |
| Smtp.DataNeverMeetsUnknownRecipients | internal/delivery/mailman.go:50-54 | In every reachable session all recipients can be routed, and none is relayed for a stranger. |
| Smtp.DataIsConfirmedExactly | internal/smtp/handler.go:278-377 | In a session that may send DATA, it is confirmed if and only if the block is whole and within the limit, cache and blob store have room for it, the hooks agree, no transaction fails and no two recipients share a mailbox. |
| Smtp.ToIsConfirmedSinceRset | internal/smtp/handler.go:107-117 | The recipients of the envelope are exactly those confirmed since the last RSET. |
| Smtp.ToIsLeftOverAndConfirmed | internal/smtp/handler.go:219-271 | They are those left over when the current mail was begun, and those confirmed for it. |
| Smtp.ToFromCommands | internal/smtp/handler.go:107-271 | There are recipients if and only if a RCPT was confirmed with no RSET after it; some were left over when the current mail was begun if and only if a MAIL was confirmed after such a RCPT. |
| Smtp.MailGoesWhereItShouldExactly | internal/smtp/handler.go:219-271 | A mail goes to just the recipients confirmed for it if and only if no RCPT was confirmed before a confirmed MAIL without a RSET after it. |
| Smtp.SecondMailGoesToFirstRecipients | internal/smtp/handler.go:369-376 | A session of two mails in which the second also goes to the recipient of the first. |
| Smtp.ExecAppends | internal/smtp/proto.go:113-158 | A session that has not ended goes on with the next command from where it stands. |
| Smtp.Session.Helo | internal/smtp/handler.go:48-57 | The handler takes the step of the automaton. |
| Smtp.Session.Rset | internal/smtp/handler.go:104-118 | The handler takes the step of the automaton. |
| Smtp.Session.Mail | internal/smtp/handler.go:143-225 | The handler, with its loop over the hooks, takes the step of the automaton. |
| Smtp.Session.Rcpt | internal/smtp/handler.go:230-273 | The handler takes the step of the automaton. |
| Smtp.Session.Auth | internal/smtp/handler.go:409-506 | The handler takes the step of the automaton. |
| Smtp.Session.Data | internal/smtp/handler.go:278-377 | The handler takes the step of the automaton for the outcome of the whole command, and stores what it says. |
| Smtp.Dispatch | internal/smtp/proto.go:124-158 | For each command, the session, the stores and the wake-up are those that the request leads to. |
| Smtp.Serve | internal/smtp/proto.go:113-158 | The command loop: session, tables, blobs and wake-ups are those of all requests one after the other, each block being received as DATA specifies; the session is in a state its commands lead to, it ends exactly with a command that closes it, and it leaves nothing in the cache that can be removed. |
| Smtp.SessionOnlyAdds | internal/smtp/proto.go:113-158 | Over any requests, nothing that was stored before is lost or changed. |
| Smtp.ConfirmedIsStored | internal/smtp/handler.go:367-375 | A confirmed mail is stored: its row, an entry in each local mailbox of its recipients, a queue row with all outbound addresses, and the blob with the received text. |
| Smtp.ConfirmedStays | internal/smtp/handler.go:367-375 | It still is, whatever the client sends afterwards. |
| Refinement.DeliverIsSteps | internal/delivery/mailman.go:33-87 | A delivery that nothing interrupts is a run of steps of the mail system with exactly its effect, for every failure of disk and database; a blob left without a row is one that could not be removed. |
| Refinement.CleanIsSteps | internal/storage/cleaner.go:30-41 | So is a collection with the removal of its blobs, in any order, whichever of them cannot be removed. |
| Refinement.QuitIsSteps | internal/pop3/handler.go:117-141 | So is QUIT, with the end of the session and of its lock, whichever of its transactions and removals fail. |
| Refinement.PassIsSteps | internal/pop3/handler.go:66-109 | So is PASS: it takes lock and snapshot, or leaks the lock, or does nothing. |
| Refinement.CommandIsStep | internal/pop3/handler.go:42-396 | USER, DELE and RSET are a step each where they are accepted; no other command but PASS and QUIT changes the session. |
| Refinement.AttemptIsStep | internal/delivery/queue.go:170-195 | For the mail system an attempt is a rescheduling to a later date, a removal from the queue, or nothing. |
| Refinement.AttemptIsFinish | internal/delivery/queue.go:170-195 | For the wake-up protocol an attempt is the end of the worker's attempt, with the corresponding new date. |
| Refinement.HeadIsPeek | internal/storage/db.go:347-370 | The rows that the protocol lets the worker read are just those that the query may answer. |
| Refinement.FateIsSameExactly | internal/delivery/queue.go:128-195 | The date stays the same if and only if the mail is missing, the transaction fails, or the servers leave the row stuck. |

## Left out

- FoldOptimality.GreedyIsOptimal: is about ASCII values, because the limit itself is missed for others; how far and when is Folding.OverlongExactly.
- EndToEnd.EndToEnd: asks for fields with values that are not empty and have no CR or LF, because others break the header; Folding.HeaderEndsLine and Folding.FieldUnfoldsExactly say what happens then.
- DotEncoding.DotWriter.Write: has no early return, because errors of the connection's buffered writer are not part of the model.
- DotEncoding.DotWriter.Close: returns no error, for the same reason.
- Pop3.Session.Retr: has no error while writing to the connection, for the same reason; the error while reading is there.
- DataCommand.Data: has no error of the reply to the client, which would end the session after the fact.
- QueueAttempt.Do: takes the queue row as it is when the attempt begins, because only the worker itself changes rows.
- Sockets, TLS, timeouts, accepting and shutting down connections.
- Lines beyond the scanner's limit of 64 KiB, and a partial line before a connection breaks.
- Parsing of commands and their arguments: a command arrives with its argument parsed, malformed or too long.
- Password hashes, base64, DNS lookups, SPF and blocklists, and the choice of a mail exchanger: parameters.
- Normalisation of addresses, JSON and TOML: an address is compared by its normalised parts, as given.
- SQL text and SQLite's locking: a transaction happens as a whole or not at all; foreign keys are off.
- STAT and UIDL: STAT counts marked messages too, and UIDL with a number prints it counted from 0.
- Taking up the queue when the server starts: nothing wakes the worker up, so the protocol starts with an empty queue.
- STARTTLS, NOOP, VRFY and CAPA, reply texts, logging, the shell, certificates, configuration.
