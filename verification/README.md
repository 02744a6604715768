# Verified model of spasm

spasm is the Z80 assembler and TI application signer of this repository. This project models its
algorithms in Dafny and proves what they promise. `dafny verify dfyconfig.toml` checks everything.

| file | models |
|---|---|
| `NumberTheory.dfy` | congruences, Fermat, Euler's criterion, the quadratic character of 2 |
| `Signer.dfy`, `StoredKey.dfy` | `siggen`: the choice of f, the two roots, the recombination; the program's own key |
| `IntelHex.dfy` | `intelhex` and a loader for Intel's hexadecimal object file format (Revision A, 1988) |
| `AppFile.dfy` | `makeapp`: the room check, the signature block, the predicted length |
| `HashTable.dfy` | the symbol table with linear probing and removal by clump |
| `CaseMap.dfy` | case conversion four bytes at a time |
| `ErrorSessions.dfy` | the error list and its sessions |
| `ExpandBuf.dfy` | the growable text buffer |
| `Conditional.dfy` | `#if` blocks and the skipping of text |
| `Arithmetic.dfy`, `Scanner.dfy`, `Parser.dfy` | the expression evaluator |
| `Expansion.dfy` | text expansion of names, and `eval` |
| `TwoPass.dfy`, `Assembly.dfy` | the two passes with back-patching |
| `Listing.dfy` | the hex columns of the listing |
| `Bytes.dfy` | bytes, hexadecimal digits and other shared helpers |

Code that changes state is modelled by classes and methods with loops, each proved against a
specification function; what the source promises is then proved about those functions.

## How the parts are read

- **Integers.** mpz values are mathematical integers. Expression values are 32-bit and wrap
  (`Arithmetic.Wrap`); where C leaves a result undefined (division by zero, the one overflowing
  quotient, shifts by a negative or too large amount) evaluation fails with `Undefined`. A char is
  signed.
- **Signer.** The GMP branch is modelled; a Legendre symbol and a modular power are mathematical
  functions. The primality of the two stored factors is the only hypothesis.
- **Hash table.** The hash function is an arbitrary function into 32 bits.
- **Conditional assembly.** A file is a sequence of physical lines. How a line is read and whether
  its condition holds (given the lines assembled before it) are parameters; `Read` is the program's
  own reading. `nIfLevel` is tracked as the code does: after a false `#if` without another branch it
  is not counted down, so it is at least the true level and never less.
- **Evaluator.** A place in the text is an index. The scanner reads numbers, names and operators;
  `Parser.Text` is what the recursive evaluator sees of them.
- **Names.** Labels and defines are stored and looked up under the name a fold gives: the upper-case
  name by default, the name itself with names case-sensitive (`Assembly.FoldOf`). The results hold for
  every fold.
- **Two passes.** `Machine` stands for evaluation and expansion; `Assembly.Spasm` is the assembler's
  own. A program is a list of statements as the line reader finds them.

## What the code does otherwise than intended

- `makeapp` checks for room only above one page: sizes 16289 to 16384 (and 0) get a header length
  that is 17 too small (`AppFile.AcceptedWithWrongLength`).
- `intelhex` writes a wrong page checksum from page 256 on (`IntelHex.RoundTrip`).
- Removing a name whose hash is zero looks in the wrong slot, because 2^32 is no multiple of the
  table sizes (`HashTable.ScanStartsBelowHome`). Its scan may never end (`HashTable.ScanEndsIff`,
  `HashTable.ThreeSlotsHang`) or miss the name (`HashTable.AloneMissed`). When it ends, a name is removed
  if and only if all slots from the start of removal to its own are occupied
  (`HashTable.Table.HashRemove`).
- A restart operand that is put off can never be written (`TwoPass.PutOffRestartFails`).
- An operand that is put off can change its value. Labels from 1000000000 on, or below -99999999, are
  cut off (`Expansion.PrintedInFull`, `Expansion.LabelCutOff`); the digits of a `$` number that are also
  a label's name, or the character of a literal, are replaced (`Expansion.DollarLabel`,
  `Expansion.CharacterLabel`); a negative label behind a sign becomes a syntax error
  (`Expansion.SignedNegativeFails`); a `!=` directly behind a number or a local label can form a name
  with it (`Expansion.JointName`); and nothing is expanded behind the literal of a double quote
  (`Expansion.QuoteHides`). `Expansion.PutOffAtom`, `Expansion.JointIs` and
  `Expansion.TransparentParts` say that nothing else goes wrong.
- Directly behind a string literal, an opening quote is copied as an ordinary character, so the
  names in a second literal are expanded (`Expansion.AdjacentLiteral`, `Expansion.TakenAsWritten`),
  and expanding twice is not always expanding once (`Expansion.TwiceDiffers`).

## Model

| member | source | states |
|---|---|---|
| StoredKey.StoredKeyIsGood | spasm/export.cpp:22-57 | the six stored byte tables fit together: n = pq, the two root exponents, and q times the stored constant is 1 modulo p; only the primality of p and q is assumed |
| Signer.MultiplierCharacters | spasm/export.cpp:369-393 | which of -2, -1, 1, 2 are residues modulo p and modulo q |
| Signer.ChosenMultiplier | spasm/export.cpp:369-393 | in all four Legendre cases exactly one f makes the multiple of the message a residue modulo both primes: the f the code computes |
| Signer.AdjustedMessage | spasm/export.cpp:379-393 | doubling when lp = lq and subtracting from n when lq = 0 is multiplying by what f stands for, and meets the precondition of the root step |
| Signer.PrimeRoot | spasm/export.cpp:395-411 | the power (p+1)/4 of a residue is a root of it that is a residue itself |
| Signer.Recombine | spasm/export.cpp:413-445 | ((r-s)*qinv mod p)*q+s lies below pq and is r modulo p and s modulo q |
| Signer.UniqueRoot | spasm/export.cpp:413-445 | two roots of one number below n that are residues modulo both primes are equal |
| Signer.RootFixesMultiplier | spasm/export.cpp:369-377 | a root of the multiple of the message for some f exists only for the f the code computes |
| Signer.SignatureUnique | spasm/export.cpp:318-479 | no other f and no other number is a signature of the message |
| Signer.MessageCoprime | spasm/export.cpp:358-362 | 256 times a 16-byte hash, plus one, is prime to both factors |
| Signer.ChooseF | spasm/export.cpp:358-393 | f is at most 3 and the adjusted hash is congruent to its multiple of the message, prime to both factors and a residue modulo both |
| Signer.RootOf | spasm/export.cpp:395-445 | the result is a positive number below n, a root of the adjusted hash modulo n and a residue modulo both primes |
| Signer.Garner | spasm/export.cpp:413-445 | the recombination step on the mpz variables gives a number below n with the two given remainders |
| Signer.Siggen | spasm/export.cpp:318-479 | the signature and f verify, no other f admits a root at all, and no other signature exists |
| IntelHex.FillLine | spasm/export.cpp:658-665 | one line takes 32 bytes or what is left, writes their hex digits and adds them to the checksum |
| IntelHex.PrintLine | spasm/export.cpp:658-669 | one data record with its count, address, digits and checksum |
| IntelHex.WritePage | spasm/export.cpp:655-671 | a page takes up to 512 lines from its base address on |
| IntelHex.WriteHex | spasm/export.cpp:644-673 | the whole text: a page record and data records for each page, then the end record |
| IntelHex.HeaderIsRecord | spasm/export.cpp:655 | the page record is a colon, the hexadecimal digits of its bytes and a line end |
| IntelHex.HeaderChecksum | spasm/export.cpp:655 | the bytes of the page record sum to zero modulo 256 if and only if the page is below 256 |
| IntelHex.DataIsRecord | spasm/export.cpp:659-668 | every data record is a colon, the hexadecimal digits of its bytes and a line end |
| IntelHex.DataChecksum | spasm/export.cpp:656-668 | the bytes of every data record, checksum included, sum to zero modulo 256 |
| IntelHex.RoundTrip | spasm/export.cpp:644-673 | loading the text gives the buffer back, byte k on page k / 0x4000 at 0x4000 + k mod 0x4000, exactly when there are at most 256 pages |
| IntelHex.HexFromLength | spasm/export.cpp:644-673 | the exact number of characters written for every size |
| AppFile.PredictedLengthExact | spasm/export.cpp:272-274 | the header length is the exact length of the text when the signature does not spill onto a page of its own, and 17 less otherwise |
| AppFile.AcceptedWithWrongLength | spasm/export.cpp:187-192 | the size check lets a wrong length through exactly for an empty application and for sizes 16289 to 16384 |
| AppFile.ShortByOnePage | spasm/export.cpp:224-225 | at sizes 16289 to 16384 the header falls short by the 17 characters of one page record |
| AppFile.ByteCount | spasm/export.cpp:449-450 | half the hexadecimal digits, rounded up, is the number of bytes exported |
| AppFile.BlockRoundTrip | spasm/export.cpp:253-264 | f and the signature can be read back from the 96 appended bytes |
| AppFile.Export | spasm/export.cpp:451 | the exported bytes stand at their place and nothing before it changes |
| AppFile.PutHead | spasm/export.cpp:253-256 | tag and length are written in front of the exported bytes, which stay |
| AppFile.PutF | spasm/export.cpp:257-261 | f is written behind the signature in one byte or two |
| AppFile.PutFields | spasm/export.cpp:250-261 | tag, length, signature and f stand behind the application, which stays as it was |
| AppFile.Fill | spasm/export.cpp:262-264 | the filler takes exactly the rest of the 96 bytes |
| AppFile.AppendSignature | spasm/export.cpp:250-264 | the buffer is the application followed by the 96-byte block |
| AppFile.HeaderLength | spasm/export.cpp:272-274 | the number computed is the predicted length of the unsigned size |
| AppFile.MakeApp | spasm/export.cpp:177-297 | an application is refused exactly by the room check; otherwise the signature verifies, the text loads to the signed application, and the header holds the predicted length |
| StoredKey.StoredModulusBytes | spasm/export.cpp:22-30 | the stored modulus fits in 64 bytes |
| HashTable.Table.constructor | spasm/hash.cpp:110-119 | all slots are free, as many as asked for and one more if fewer than two were |
| HashTable.Table.HashInsert | spasm/hash.cpp:126-145 | the entry is put in the first free slot from its home and nothing else changes; every slot from an entry's home to the entry stays occupied |
| HashTable.Table.Insert | spasm/hash.cpp:126-145 | inserting a new name adds exactly its binding |
| HashTable.Table.Lookup | spasm/hash.cpp:153-168 | the search ends and returns the stored entry exactly when the name is bound |
| HashTable.Table.PullOut | spasm/hash.cpp:195-210 | the rest of the clump is taken out in order and its slots are empty |
| HashTable.Table.Rehash | spasm/hash.cpp:216-223 | every entry pulled out is stored again, except those with the name, which go to the callback |
| HashTable.Table.FindStart | spasm/hash.cpp:180-195 | the loop of the backward scan finds the slot at which removal starts |
| HashTable.Table.HashRemove | spasm/hash.cpp:175-227 | for every name for which the scan ends: its binding is gone if and only if it was not bound or every slot from the start of removal to its entry was occupied; otherwise nothing is gone; the entry removed and no other is handed to the callback |
| HashTable.Table.Remove | spasm/hash.cpp:175-227 | a name whose hash is not zero, or any name if the size divides 2^32, is always removed |
| HashTable.RunHoldsReached | spasm/hash.cpp:195-210 | the entries pulled out hold the name exactly when its entry stands in the run of occupied slots |
| HashTable.RemovalRepresents | spasm/hash.cpp:195-227 | taking out a run and storing the others again removes the name if the run reached it and nothing otherwise |
| HashTable.HomeReaches | spasm/hash.cpp:137-143 | from a name's home slot its entry is always reached |
| HashTable.InsertKeepsProbing | spasm/hash.cpp:137-143 | filling the first free slot keeps the probing invariant |
| HashTable.EntryBeforeFree | spasm/hash.cpp:163-167 | an entry is reached before the first free slot behind its home |
| HashTable.EmptyingKeepsProbing | spasm/hash.cpp:195-210 | emptying a run up to a free slot keeps every entry outside it reachable, across the end of the table too |
| HashTable.ScanCannotMove | spasm/hash.cpp:183-193 | the backward scan stops where it starts |
| HashTable.ScanStartsBelowHome | spasm/hash.cpp:186-199 | the slot behind the start of the scan is the home slot if and only if the hash is not zero or the size divides 2^32 |
| HashTable.ScanEndsIff | spasm/hash.cpp:183-193 | the backward scan ends if and only if the hash is not zero or some slot up to (2^32 - 1) mod size is free or holds another hash |
| HashTable.ZeroScanStops | spasm/hash.cpp:183-193 | for hash zero it stops at the highest such slot |
| HashTable.ThreeSlotsHang | spasm/hash.cpp:183-193 | with three slots it never ends once a name with hash zero is in the first |
| HashTable.AloneNeverEnds | spasm/hash.cpp:183-193 | a name with hash zero alone in its home slot, with a size that leaves 1 of 2^32: the scan never ends |
| HashTable.AloneMissed | spasm/hash.cpp:186-214 | a name with hash zero alone in its home slot, with a size that leaves more than 1 of 2^32: the scan ends and removal does not reach the name |
| HashTable.ZeroHashReached | spasm/hash.cpp:186-214 | another entry can make the scan stop so that such a name is reached |
| HashTable.TableSizes | spasm/storage.h:12-13 | 2^32 leaves 8 and 5308 for the sizes of the tables of defines and labels, so both are of the kind where such a name is missed |
| CaseMap.MapWordLane | spasm/modp_ascii.cpp:145-155 | each lane of the word arithmetic is the table's byte: nothing crosses a lane and bytes from 0x80 on stay |
| CaseMap.MapTextIdempotent | spasm/modp_ascii.cpp:136-196 | converting twice is converting once |
| CaseMap.ConvertWord | spasm/modp_ascii.cpp:145-155 | a word of four bytes becomes the four converted bytes |
| CaseMap.CopyWord | spasm/modp_ascii.cpp:145-155 | one turn of the loop converts four bytes and changes nothing else |
| CaseMap.CopyLeftover | spasm/modp_ascii.cpp:157-164 | the switch converts up to three bytes and writes the final zero |
| CaseMap.MapCopy | spasm/modp_ascii.cpp:136-206 | for every length, copied or in place, the destination is the converted text and a zero |
| ErrorSessions.Sessions.Start | spasm/errors.cpp:84-88 | the session counter goes up and the list stays |
| ErrorSessions.Sessions.SetProblem | spasm/errors.cpp:299-348 | a report with a code is put in front of the list under the current session |
| ErrorSessions.Sessions.ErrorCount | spasm/errors.cpp:90-103 | the number of reports with a code at the head of the list that belong to the session |
| ErrorSessions.Sessions.IsFatal | spasm/errors.cpp:105-124 | whether one of them is not curable by a second pass |
| ErrorSessions.Sessions.Replay | spasm/errors.cpp:138-161 | the reports at the head move one session down; in session 1 they are printed, oldest first |
| ErrorSessions.Sessions.Annotate | spasm/errors.cpp:178-206 | exactly the reports of this session and those above it get the annotation |
| ErrorSessions.Sessions.End | spasm/errors.cpp:208-237 | the reports of the session at the head are removed and the counter goes down |
| ErrorSessions.EndRemovesExactly | spasm/errors.cpp:208-237 | in an ordered list, ending the current session removes its reports and no others |
| ErrorSessions.ReplayThenEnd | spasm/errors.cpp:138-237 | replay and then end loses no report of a session above 1 and moves each to the session below |
| ErrorSessions.FlatOrdered | spasm/errors.cpp:299-348 | the list of a stack of frames is ordered by session, newest first |
| ErrorSessions.StepRefines | spasm/errors.cpp:84-237 | each call on the flat list does what it does on the stack of frames |
| ErrorSessions.RunRefines | spasm/errors.cpp:84-348 | so does every properly nested run of calls |
| ExpandBuf.Doubled | spasm/expand_buf.cpp:55-59 | doubling ends for every size above zero, at a size that is enough and less than twice what is needed |
| ExpandBuf.Buffer.MakeRoom | spasm/expand_buf.cpp:55-67 | the buffer grows by doubling and keeps its contents |
| ExpandBuf.Buffer.ShiftTail | spasm/expand_buf.cpp:70-75 | the backward copy moves the tail without loss |
| ExpandBuf.Buffer.Insert | spasm/expand_buf.cpp:38-80 | the contents become the sequence with the text inserted, within the capacity; the returned offset is as the code computes it |
| ExpandBuf.Buffer.Append | spasm/expand_buf.cpp:26-28 | appending is inserting at the end |
| ExpandBuf.Buffer.Overwrite | spasm/expand_buf.cpp:89-96 | bytes are replaced in place and the length stays |
| ExpandBuf.Buffer.Extract | spasm/expand_buf.cpp:128-130 | the text taken out is the contents |
| ExpandBuf.Buffer.InsertAll | spasm/expand_buf.cpp:38-80 | a run of insertions leaves the same run of sequence insertions |
| Conditional.OrdinaryLine | spasm/utils.cpp:370-382 | a line that is not a directive is read the same way by the assembler and by the skipping code |
| Conditional.DirectiveLine | spasm/preop.cpp:38-51 | the two readings of a directive agree if and only if its name is not a longer word that starts like if, else, elif or endif |
| Conditional.SkipFromIs | spasm/preop.cpp:727-781 | skipping stops at the first line that ends it at the nesting level reached there, or at the end of the file |
| Conditional.SkipBlocks | spasm/preop.cpp:727-781 | whole blocks are passed at every nesting level |
| Conditional.SkipTail | spasm/preop.cpp:740-767 | inside a skipped block its #else and #elif are passed and its #endif ends it |
| Conditional.SkipToEnd | spasm/preop.cpp:668-671 | looking for #endif alone passes the other branches of the block |
| Conditional.SkipsFromBranch | spasm/preop.cpp:727-781 | from a branch, skipping stops right behind the branch, or at the #endif of the same block |
| Conditional.RunBranch | spasm/preop.cpp:668-689 | do_if on an #if or #elif assembles at most one branch of its block and goes on behind the #endif |
| Conditional.RunPastTail | spasm/preop.cpp:83-165 | once a branch has been assembled the rest of its block is skipped |
| Conditional.RunMeansBlocks | spasm/preop.cpp:668-781 | for every well-nested file the lines assembled, with their line numbers, are those the tree of blocks means, and nothing is reported |
| Conditional.FirstPass.SkipUntil | spasm/preop.cpp:727-781 | the loop finds the line the specification names, and its line number |
| Conditional.FirstPass.TakeIf | spasm/preop.cpp:668-689 | do_if with its check for a missing #endif |
| Conditional.FirstPass.TakeFalse | spasm/preop.cpp:676-688 | the branch of do_if for a false condition, chaining through #elif |
| Conditional.FirstPass.TakeLine | spasm/preop.cpp:77-165 | the cases of handle_preop for conditional directives |
| Conditional.FirstPass.TakeFile | spasm/pass_one.cpp:113-147 | the loop over the lines is the specified run |
| Arithmetic.DivisionTruncates | spasm/parser.cpp:552-579 | quotient and remainder truncate toward zero and belong together |
| Arithmetic.BitwiseAt | spasm/parser.cpp:552-579 | every bit of a xor, and or or comes from the two bits of its weight |
| Arithmetic.WrapTimes | spasm/parser.cpp:659-664 | wrapping an accumulator before or after a multiplication and an addition gives the same |
| Scanner.ConvertIs | spasm/parser.cpp:642-729 | an accumulator kept in 32 bits gives the positional value of the digits modulo 2^32 |
| Scanner.StepBackIs | spasm/parser.cpp:221-238 | the minus signs of a local label step back one label each and not past the first |
| Scanner.AtomIs | spasm/parser.cpp:189-452 | every number, program counter, label, local label and character literal that is properly delimited is read as its value, up to its end |
| Scanner.MathDefsOrdered | spasm/parser.cpp:60-85 | no operator of the table is a beginning of a later one |
| Scanner.LongestMatch | spasm/parser.cpp:593-602 | the first operator found is the longest that stands there |
| Scanner.OperatorIs | spasm/parser.cpp:593-602 | an operator followed by a blank or an operand is the one found |
| Scanner.NextIs | spasm/parser.cpp:582-632 | behind a value the next operator and its operand's place are found past any blanks |
| Scanner.CloseIs | spasm/parser.cpp:607-614 | a closing parenthesis ends the inner expression behind the blanks that follow |
| Parser.ChainIs | spasm/parser.cpp:511-633 | a tree is folded from left to right up to the next operator behind it |
| Parser.ParseNumIs | spasm/parser.cpp:112-126 | on every text that holds an expression the result is the tree's value, or the first error of its evaluation |
| Parser.EvalWithin | spasm/parser.cpp:498-502 | the depth limit changes the value of no tree with at most nineteen nested parentheses and fails all others |
| Parser.ParseNumMeans | spasm/parser.cpp:492-634 | an expression evaluates if and only if its tree has a value and nests at most nineteen parentheses, and then to that value |
| Parser.ParsePadded | spasm/parser.cpp:492-634 | printing any tree between blanks and evaluating the text gives the tree's value or its first error |
| Parser.ParsePrinted | spasm/parser.cpp:492-634 | the same without blanks |
| Parser.Evaluator.ConvertRun | spasm/parser.cpp:642-729 | the loop of the three conversion functions |
| Parser.Evaluator.ParseSingleNum | spasm/parser.cpp:189-452 | the cases of parse_single_num |
| Parser.Evaluator.FindOperator | spasm/parser.cpp:593-602 | the loop over the operator table |
| Parser.Evaluator.GetOperator | spasm/parser.cpp:581-632 | the code from get_op on, extra parentheses included |
| Parser.Evaluator.ParseSign | spasm/parser.cpp:515-532 | a minus that belongs to a local label is no sign |
| Parser.Evaluator.ParseNumFull | spasm/parser.cpp:492-634 | the loop computes the specified result and parse_depth is back at its old value on success |
| Parser.Evaluator.Parse | spasm/parser.cpp:112-126 | success and value, with zero on any error |
| Expansion.PrintedInFull | spasm/utils.cpp:876-877 | a label is printed in full if and only if it is from -99999999 to 999999999 |
| Expansion.LabelCutOff | spasm/utils.cpp:875-879 | a label of ten digits loses the last one |
| Expansion.NotTooDeep | spasm/utils.cpp:832-835 | acyclic defines no deeper than the limit are expanded without an error |
| Expansion.ExpandIsWritten | spasm/utils.cpp:837-900 | the expansion writes the pieces it takes one after the other: literals as they are, names replaced |
| Expansion.TakenAsWritten | spasm/utils.cpp:838-849 | all literals of a text are taken as literals if and only if none is directly followed by a quote |
| Expansion.AdjacentLiteral | spasm/utils.cpp:838-849 | the name in a second literal directly behind a first one is expanded |
| Expansion.ExpandAppend | spasm/utils.cpp:837-900 | texts that no name joins are expanded one after the other |
| Expansion.TakenAgain | spasm/utils.cpp:837-900 | the pieces taken from the expanded text are those that were written if and only if the literals among them are closed and apart |
| Expansion.ExpandSettles | spasm/utils.cpp:837-900 | then no name is left to expand, however the defines refer to each other |
| Expansion.ExpandFixes | spasm/utils.cpp:837-900 | a text is expanded to itself if and only if no name in it is defined or known |
| Expansion.ExpandTwice | spasm/utils.cpp:904-915 | expanding twice is expanding once if and only if the expanded text is settled, as it is when its literals are closed and apart; cyclic defines included |
| Expansion.TwiceDiffers | spasm/utils.cpp:838-849 | a define that is a literal, behind a literal: the second expansion replaces a name that the first left |
| Expansion.FollowedUnglued | spasm/utils.cpp:838-849 | the literals are closed and apart when defines hold no quotes and each literal is followed by a separator or the end |
| Expansion.LetteredPlain | spasm/utils.cpp:875-879 | no printed label is a name when names start with a letter or an underscore |
| Expansion.AtomText | spasm/utils.cpp:850-885 | a number or name is expanded to itself or its value in full if and only if it is a label printed in full, or no name in it is known |
| Expansion.HexDigitsReplaced | spasm/utils.cpp:850-885 | the digits of a $ number that are a label's name are replaced by its value |
| Expansion.DollarLabel | spasm/utils.cpp:850-885 | with AB = 5, $AB becomes $5 |
| Expansion.CharacterLabel | spasm/utils.cpp:850-885 | with A = 5, 'A' becomes '5' |
| Expansion.QuoteHides | spasm/utils.cpp:838-849 | behind the character literal of a double quote nothing is expanded |
| Expansion.ExpandRender | spasm/utils.cpp:837-900 | expanding a printed tree prints the tree with its known labels replaced by their values |
| Expansion.PutOffMeans | spasm/pass_two.cpp:73-80 | a text expanded in pass one and evaluated in pass two, blanks around it included, has the value of its tree, early labels laid over late ones |
| Expansion.PutOffAtom | spasm/pass_two.cpp:73-80 | an atom, alone or behind a sign, keeps its text and value through this if and only if it is printed in full or holds no known name, and no negative label stands behind the sign |
| Expansion.TransparentParts | spasm/pass_two.cpp:73-80 | the trees of PutOffMeans are exactly those whose atoms and signed atoms keep text and value, which hold no double quote and whose operators stand at joints |
| Expansion.JointIs | spasm/utils.cpp:850-885 | behind an operand that ends in no known name, and with labels only behind every operand, an operator's text is kept if and only if they meet at a joint: no name arises or is lost there |
| Expansion.JointName | spasm/utils.cpp:850-885 | with a label _! = 7, the expression +_!=1 becomes +7=1 |
| Expansion.SignedNegativeFails | spasm/utils.cpp:875-879 | a negative label behind a sign makes the expanded text a syntax error, whatever the later labels are |
| Expansion.HexTextMeans | spasm/utils.cpp:235-239 | what eval prints for a value is read back as the same 32 bits |
| Expansion.EvalTextMeans | spasm/utils.cpp:227-246 | what eval gives for an operand reads later as the value it had, or as the value the put-off operand gets |
| Expansion.Expander.ExpandFull | spasm/utils.cpp:824-901 | the loop and its recursion write the specified text, report too great a depth, and end for all defines |
| Expansion.Expander.ExpandTurn | spasm/utils.cpp:837-900 | one turn: a string literal, a name or a character, and the separators behind |
| Expansion.Expander.SkipString | spasm/utils.cpp:838-849 | the end of a string literal with its escapes |
| TwoPass.ArgWidth | spasm/pass_two.cpp:265-325 | every argument takes the number of bytes of its type, a refused restart none |
| TwoPass.PatchedAppend | spasm/pass_two.cpp:147-209 | bytes written behind the image do not disturb the patches |
| TwoPass.PutOffFollows | spasm/pass_two.cpp:49-86 | a put-off expression reserves its bytes and pass two overwrites exactly those |
| TwoPass.EmitFollows | spasm/pass_two.cpp:26-101 | one operand, written or put off, keeps the image in step with the reference |
| TwoPass.PutOffRestartFails | spasm/pass_two.cpp:178-193 | a restart that is put off always ends in an error |
| TwoPass.TwoPassesAreOne | spasm/pass_two.cpp:147-209 | the two passes report no error if and only if the reference single pass reports none and no restart was put off; then the patched image is the reference's output |
| TwoPass.ExecExtends | spasm/pass_one.cpp:183-309 | every statement only adds bytes, and what it puts off stands in the bytes it adds |
| TwoPass.OpcodeSizes | spasm/opcodes.cpp:7-902 | for every shape of an opcode entry the size field is the number of bytes written |
| TwoPass.ListedConsistent | spasm/opcodes.cpp:7-902 | the size of every instruction with such an entry is the number of its bytes |
| TwoPass.InstructionGrows | spasm/pass_one.cpp:582-662 | an error-free instruction with an entry of the tables writes as many bytes as its size |
| TwoPass.RunInStep | spasm/pass_one.cpp:582-662 | in every error-free run without .org, with instructions of the tables, the program counter advances with the output |
| TwoPass.Assembler.WriteOut | spasm/pass_one.cpp:35-69 | one byte is stored at the output position |
| TwoPass.Assembler.WriteArg | spasm/pass_two.cpp:265-325 | the bytes and the error of each argument type |
| TwoPass.Assembler.AddPassTwoExpr | spasm/pass_two.cpp:26-101 | evaluate and write, or queue the expanded text with its place and write a placeholder |
| TwoPass.Assembler.WriteInstructionData | spasm/pass_one.cpp:582-662 | data from its last byte, the arguments in order, then the end data with the bit number |
| TwoPass.Assembler.EmitString | spasm/directive.cpp:482-700 | the items of .db and .dw |
| TwoPass.Assembler.FillBlock | spasm/directive.cpp:82-123 | .fill and .block |
| TwoPass.Assembler.Statement | spasm/pass_one.cpp:183-309 | labels, local labels, equates, directives and instructions |
| TwoPass.Assembler.RunFirstPass | spasm/pass_one.cpp:113-147 | the run over all statements |
| TwoPass.Assembler.RunSecondPass | spasm/pass_two.cpp:147-210 | the list is emptied in order, the image is the patched one, and the output position is restored |
| TwoPass.Assembler.PatchOne | spasm/pass_two.cpp:160-204 | one queued expression is evaluated where it stood and written over its placeholder |
| Assembly.EvalGrows | spasm/pass_two.cpp:45-47 | a value, or an error that is not for lack of a label, stays the same when more labels are known |
| Assembly.ResolveIsKnown | spasm/pass_two.cpp:45-88 | an operand, blanks around it included, gets the value it has when every label is known from the start |
| Assembly.LabelsKeep | spasm/storage.cpp:493-541 | labels defined once, under their stored names, keep their values to the end of the run |
| Assembly.RunTables | spasm/pass_one.cpp:270-309 | labels, local labels and program counter do not depend on how operands are written |
| Assembly.AsIfKnown | spasm/pass_two.cpp:147-209 | for programs with labels defined once, the two passes give the image of a single pass whose operands see every label from the start, and fail exactly when that pass fails or a restart was put off; `.fill`, `.org` and equates see the labels so far |
| Assembly.Assemble | spasm/pass_two.cpp:147-209 | the assembler object run through both passes returns that image, with names case-sensitive or not |
| Listing.ColumnFound | spasm/pass_one.cpp:44-53 | from the place where a byte's writing began its own column is found, past the margin of a new row |
| Listing.PatchIsRelisting | spasm/pass_one.cpp:35-69 | overwriting the columns of a word gives the listing its new bytes would have got in pass one, across rows too |
| Listing.PatchedListing | spasm/pass_two.cpp:151-210 | through all patches the saved offsets stay valid and the length stays; in the end the listing is that of the final bytes |
| Listing.ListingShowsImage | spasm/pass_two.cpp:151-210 | if the listing of pass one lists the output, the bytes in the listing after all patches are the patched image |
| Listing.ListingOfImage | spasm/pass_two.cpp:151-210 | through the queue of pass two the listing becomes the one that a run writing the patched image would have got |
| Listing.ListRunIs | spasm/pass_one.cpp:79-147 | the listing of pass one lists the output, with the columns of each operand side by side |
| Listing.ListingOfProgram | spasm/pass_two.cpp:151-210 | for every program without an error the listing, patched from the queue of pass two, lists the image |
| Listing.ListingBuffer.ListByte | spasm/pass_one.cpp:38-62 | pass one starts a new row after four columns and inserts the column at the end |
| Listing.ListingBuffer.ListAll | spasm/pass_one.cpp:79-147 | a run of pass one writes the specified lines |
| Listing.ListingBuffer.OverwriteByte | spasm/pass_one.cpp:44-61 | pass two skips to the next column and overwrites it |
| Listing.ListingBuffer.PatchArgument | spasm/pass_two.cpp:175-198 | the bytes of one argument from its saved offset |
| Listing.ListingBuffer.PatchList | spasm/pass_two.cpp:151-210 | all arguments of pass two, each from its saved offset |

## Left out

- HashTable.Table.HashRemove: is about scans that end, as `HashTable.ScanEndsIff` says; otherwise the loop of the source does not end. A full table is excluded, as it is for insertion and lookup, which would not end.
- HashTable.Table.Insert: is about names not yet stored, as the callers look a name up first; the counter `used` is not modelled.
- ExpandBuf.Buffer.Insert: a buffer of size zero, which doubles for ever, is excluded; `eb_erase` is not modelled.
- Assembly.AsIfKnown: redefined labels are excluded, because an expression put off keeps the value a label had when it was put off (`TwoPass.TwoPassesAreOne` covers them); macros in operands are excluded.
- Parser.ParseNumIs: macros, `eval()` and `getc()` inside expressions, the random character `'\#'` and a character literal that the text cuts off end in the outcome `Unmodelled`; warnings are not modelled.
- Expansion.ExpandTwice: defines with arguments are not modelled.
- AppFile.MakeApp: starts from an application whose header fields are in order; `findfield`, the refusals for missing fields and the fields set there (length and pages) are not modelled.
- Conditional.RunMeansBlocks: files with `#comment` or `#macro` lines, which take the lines up to their end, are excluded; directives behind a label, behind a backslash or inside quotes, and an `#if` without a condition, are not modelled.
- Listing.PatchedListing: `.nolist`, which moves the listing offset back by its margin, is not modelled, and neither is the offset of zero that inserting an empty text would give.
- MD5, the Windows cryptography calls and the project's own big-number routines.
- `.seek`, `.addinstr`, fcreate buffers, `.echo` output and the list of echoes of pass two.
- Matching the text of arguments to opcode entries: an instruction comes with its entry and argument texts.
- Files, console, command line and timing.
