# Verified models of the binary readers, code generators and JIT shim

This project models the parts of the repository whose mistakes are silent: a decoder that drifts by
one byte, a generated reader that disagrees with its writer, a batch that reorders commands, a stale
translation that is never dropped. Each model follows its code branch by branch; imperative code is a
class or a method with the same state and loops, proved against a specification, and what the code is
for is proved about that specification.

- **Static reachability over an ARM64 library** (`tools/init_reach.py`): `Sleb128.dfy`, `Aps2.dfy`,
  `Aps2Flags.dfy`, `A64.dfy`, `Library.dfy`, `Worklist.dfy`, `Reach.dfy`, `ScanOrder.dfy`. SLEB128, the
  packed-relocation format, the branch and address decoders, the worklist closure with its counters and its page map, and
  when its result depends on the order of the roots.
- **The AIDL compiler** (`tools/gen_aidl.py`): `ConstExpr.dfy`, `Evaluator.dfy`, `ConstOperators.dfy`,
  `ConstModel.dfy`, `ConstNames.dfy`, `ConstMemo.dfy` (constants, evaluated while they are parsed,
  through the memo), `ByValue.dfy`, `TypeRefs.dfy`, and the wire format of generated types in `Parcel.dfy`, `Wire.dfy`, `WireBytes.dfy`,
  `Objects.dfy`, `Writer.dfy`, together with the parcel primitives they use (`crates/omni-linux/src/hal/parcel.rs`).
- **The Vulkan forwarding generator** (`tools/gen_vk_forward.py`) and the two ends its output joins
  (`driver.c` and `gpu/mod.rs`): `VkDepends.dfy`, `VkSelection.dfy`, `VkTypes.dfy`, `VkWidth.dfy`,
  `VkPlan.dfy`, `VkRecord.dfy`, `VkReplay.dfy`, `VkDriver.dfy`, `VkBatching.dfy`.
- **The dynarmic shim** (`od_dynarmic.cpp`): `ShimSites.dfy`, the claims of many threads on tagged
  sites as a state machine over atomic steps; `ShimRanges.dfy`, the range clamp and the coherence of
  translations.
- **Readers and writers of other formats**: `Dalvik.dfy`, `DalvikTable.dfy` and `DexClass.dfy`
  (`tools/dexdis.py`),
  `VersionInfo.dfy` and `IconFile.dfy` (`tools/make_icon.py`), `PngFilters.dfy`
  (`tools/shot_stats.py`), `Fingerprint.dfy` (`tools/gen_gl_forward.py`).
- **The mutation runner** (`mutate_shim.py`): `CrashSafe.dfy`, its run as steps that may be killed
  after any of them.

`Bytes.dfy` and `Wrappers.dfy` hold what these share. `dafny verify dfyconfig.toml` checks everything.

Five properties hold only under a condition; each is stated with it, and with what happens without it.

- The closure's result does not depend on the order of the roots, nor of the scans, when address-taken
  edges are not followed, or no FDE start has two extents: one from the tables and another that a call
  to it guesses (`Library.Unambiguous`; a start of length 0 that leads to a RET has two). That is
  `Worklist.OrderIndependent`. Where one function calls what another takes the address of, the two orders
  scan as much of it exactly when it has one extent (`ScanOrder.OrderMattersExactly`), and
  `ScanOrder.OrderCanMatter` is an input for which two orders find different functions.
- Once every winner has finished, a cached block holds a seen site unmasked exactly when some throw left
  that site to no thread while the block was cached (`ShimSites.UnmaskedExactly`). A throw by the site's
  own winner need not: a thread that won earlier sites and fetches its list later fetches every site to
  the last.
  What is left stays so until it is evicted, where no other site has its address
  (`ShimSites.LeftForGood`); `ShimSites.ThrowLosesSites` is a run that leaves one.
- The range clamp is needed exactly for ranges that pass 2^64, and the obvious other way to write it
  is wrong exactly at address 0: `ShimRanges.UnclampedRight`, `ShimRanges.LengthBoundWraps`.
- Crash safety needs a backup to be written whole, and a file to be torn only while its backup is
  there: `CrashSafe.TornBackupLosesFile`, `CrashSafe.TornFileLoses`.
- A parcel is read back by another version exactly when `Wire.Readable` holds: no field without a
  default is missing, no union tag is new to the reader, and nothing nests deeper than 64.

The code decides where its comments say otherwise: the disassembler prints the call site of
`invoke-custom` as a method index and leaves out the prototype of `invoke-polymorphic`, and so does
the model.

## Model

| member | source | states |
|---|---|---|
| `SlebReader.SlebRoundTrip` | tools/init_reach.py:152-171 | reading undoes SLEB128 (section 7.6 of DWARF 4) for every integer, whatever bytes follow |
| `SlebReader.PopEncoded` | tools/init_reach.py:152-171 | `pop` recovers every signed 64-bit value from its encoding and leaves the rest |
| `SlebReader.LastStep` | tools/init_reach.py:163-171 | the sign extension by shift and the fold to 64 bits agree with SLEB128 modulo 2^64 on every terminated byte string, over-long ones included |
| `SlebReader.Sleb128.Pop` | tools/init_reach.py:152-171 | the cursor reader gives the folded value and stops right after its bytes, or fails exactly when the bytes run out, all of them consumed |
| `SlebReader.ReadSlebLocal` | tools/init_reach.py:152-171 | what is read never depends on the bytes after it |
| `Aps2.RoundTrip` | tools/init_reach.py:174-230 | every relocation list under every legal grouping by the four flags decodes back to itself, every byte consumed |
| `Aps2.EveryListEncodes` | tools/init_reach.py:174-230 | every relocation list whose addend steps fit 64 bits has such an encoding |
| `Aps2.SuffixRejected` | tools/init_reach.py:225-230 | no accepted blob followed by anything is accepted: the trailing bytes are always reported |
| `Aps2.GroupRoundTrip` | tools/init_reach.py:191-224 | one group, its header flags and its deltas, reads back whatever came before it and whatever follows |
| `Aps2.DecodeAps2` | tools/init_reach.py:174-230 | the loops over mutable offset, info and addend give, for every byte string, the specified relocations or the specified error |
| `Aps2.PopGroup` | tools/init_reach.py:191-224 | one turn of the group loop, with its errors for a size that is not positive |
| `Aps2.PopHeader` | tools/init_reach.py:195-214 | the optional group fields are popped in order and the addend is advanced, kept or cleared as the two addend bits say together |
| `Aps2.PopReloc` | tools/init_reach.py:217-224 | one relocation's deltas, against the group's shared fields |
| `Aps2Flags.FlagsMean` | tools/init_reach.py:137-140 | what each flag bit does to the bytes of a group of any size and any deltas, and to the relocations they give, by running sums: bit 0, the info once for the group; bit 1, the offset delta; bit 3, addends; bit 2, where there are, one for the group and not one a relocation; the bits above, nothing |
| `Aps2Flags.GroupRead` | tools/init_reach.py:195-224 | the same for a group after any others, whatever bytes follow: the addend goes on from the relocation before |
| `A64.BlDecodes` | tools/init_reach.py:449-453 | every displacement BL and B can hold is recovered, sign included |
| `A64.ConditionalDecodes` | tools/init_reach.py:456-460 | the same for B.cond, CBZ and CBNZ, whatever the condition or register bits |
| `A64.TestBranchDecodes` | tools/init_reach.py:463-467 | the same for TBZ and TBNZ, whatever bit they test |
| `A64.AdrDecodes` | tools/init_reach.py:470-485 | the immediate ADR and ADRP split over two fields is put together again with its sign |
| `A64.BranchWords` | tools/init_reach.py:667-694 | each branch is one range of words, or two, and no other word is one |
| `A64.AddressWords` | tools/init_reach.py:696-725 | and so are ADR, ADRP, the 64-bit LDR of an unsigned offset and the 64-bit ADD of an immediate |
| `A64.RegisterBranchWords` | tools/init_reach.py:667-694 | BLR and BR are thirty-two words each, one a register |
| `A64.AdrpNamesPage` | tools/init_reach.py:470-476 | what an ADRP names is a page, the one its displacement leads to from its own, for every word and address |
| `A64.AdrpWord` | tools/init_reach.py:470-476 | an ADRP `pages` pages on, at any address of a page, names that page and `pages` more, back or forward |
| `A64.AdrWord` | tools/init_reach.py:479-485 | an ADR names its own address and its displacement, for every displacement it can hold |
| `A64.LdrWord` | tools/init_reach.py:708-712 | a load is read off any base at any byte offset it can hold |
| `A64.AddWord` | tools/init_reach.py:716-720 | an add is read to any base with any immediate, its shift bit ignored |
| `Library.BisectRight` | tools/init_reach.py:590-596 | the insertion point separates the starts at most `v` from those above it |
| `Library.ContainingExact` | tools/init_reach.py:590-596 | with disjoint bounds a function is named for an address exactly when its bounds hold the address |
| `Library.ContainingIdempotent` | tools/init_reach.py:590-596 | a function found from any of its addresses is found from its own start |
| `Library.DistinctPositiveContained` | tools/init_reach.py:564-596 | distinct starts and positive lengths are enough for every start to lie in its own function, and so for none to have two extents |
| `Library.UnambiguousExactly` | tools/init_reach.py:651-656 | the check on the tables holds exactly when nothing that may be scanned has two extents |
| `Library.SynthesizedExactly` | tools/init_reach.py:611-631 | an extent is guessed exactly where the n-th word is the first RET, within the word limit and after only readable words, and it is 4n + 4 bytes |
| `Library.LookBackPairs` | tools/init_reach.py:658-732 | looking back finds page `p` exactly when the latest ADRP to the register within the window computed `p` |
| `Library.LookBackNone` | tools/init_reach.py:128-135 | a register that none of the seven instructions before names by an ADRP holds no known page |
| `Library.LdrNamesSlot` | tools/init_reach.py:696-725 | an encoded LDR, off a register the latest ADRP in the window put a page in, counts the import in the slot at that page and its offset, and nothing else |
| `Library.AddTakesAddress` | tools/init_reach.py:696-725 | an encoded ADD to such a register takes the address it adds up to, where it is an FDE's start and they are followed |
| `Library.AdrTakesAddress` | tools/init_reach.py:696-725 | and an encoded ADR the address its displacement leads to |
| `Library.TallyIsSum` | tools/init_reach.py:577-588 | the counters over functions scanned one after another are the sums over those functions |
| `Library.SumOrderIrrelevant` | tools/init_reach.py:598-606 | those sums do not depend on the order of scanning |
| `Library.EdgesGrow` | tools/init_reach.py:651-732 | a mode that follows at least what another follows has at least its edges from every function |
| `Library.TiersNest` | tools/init_reach.py:947-948 | the function sets of tiers A0, A and C nest |
| `Library.TiersFollow` | tools/init_reach.py:948-949 | what each tier follows: calls only, every branch out of the function, addresses taken too |
| `Worklist.FoundTells` | tools/init_reach.py:598-606 | for any tables and either mode: every run ends with each function it found scanned once, with an extent that function has; what it found is the least set that holds the resolved roots and that those scans do not lead out of; the counters are the sums over the roots and the scans |
| `Worklist.FoundLeastClosed` | tools/init_reach.py:598-606 | without address-taken edges, or with no start of two extents, that is the least set closed under the mode's edges, each function scanned with its one extent |
| `Worklist.OrderIndependent` | tools/init_reach.py:598-606 | then every order of the roots finds the same functions, scans as much of each, takes the same addresses and counts the same |
| `Worklist.Ends` | tools/init_reach.py:604-606 | the worklist is empty after at most as many turns as there are addresses to visit |
| `Worklist.TurnKeeps` | tools/init_reach.py:605-656 | each turn keeps every function scanned at most once with an extent it has, the memo of guesses right, the counters those of the events met, and nothing visited that is not needed |
| `ScanOrder.OrderMattersExactly` | tools/init_reach.py:633-656 | where one function calls what another only takes the address of, the two orders of these roots scan as much of it exactly when it has one extent; otherwise one scans what was guessed and the other what the tables say |
| `ScanOrder.OrderCanMatter` | tools/init_reach.py:598-656 | seven instruction words and four FDEs for which two orders of the same roots find different functions |
| `Reachability.Reach.Closure` | tools/init_reach.py:598-606 | on any tables the object ends in the state of the specified run: each function found scanned once with an extent it has, the set least under those scans, the counters their sums; and it is the least set closed under the mode's edges if address-taken edges are not followed or no start has two extents |
| `Reachability.Reach.Synthesize` | tools/init_reach.py:611-631 | the loop gives 4n + 4 exactly when the n-th word is the first RET, within the word limit and after only readable words, and nothing otherwise |
| `Reachability.Reach.Add` | tools/init_reach.py:633-649 | a target's function is visited once and its guessed extent kept, a mid-function or unresolved target counted, and the memo stays right |
| `Reachability.Reach.ScanInsn` | tools/init_reach.py:658-732 | one instruction does exactly what its specified events lead to and count, on any tables, and the page map goes on matching the look-back |
| `Reachability.Reach.ScanBranch` | tools/init_reach.py:667-694 | which branches leave the function, hit a stub, or are counted as indirect sites |
| `Reachability.Reach.ScanAddress` | tools/init_reach.py:696-725 | GOT slots and address-taken functions named by a live page and a load or add, on any tables |
| `Reachability.Reach.ScanNext` | tools/init_reach.py:605-656 | the function last put on the worklist is scanned with its guessed extent if a call has made one by then, and with the tables' otherwise |
| `Reachability.PagesGive` | tools/init_reach.py:658-732 | before every instruction the ageing page map holds exactly what looking back would find, so GOT hits count exactly the paired loads |
| `Reachability.PagesNext` | tools/init_reach.py:728-735 | ageing after each instruction keeps that so |
| `Reachability.AgePages` | tools/init_reach.py:728-735 | each entry loses one instruction of life and goes when none is left |
| `ConstExpr.CDivRounds` | tools/gen_aidl.py:730-732 | division rounds toward zero: the remainder has the dividend's sign and is smaller than the divisor |
| `ConstExpr.BitwiseBits` | tools/gen_aidl.py:778-802 | the bit operations act on each bit of two's complement integers of any width, negative ones included |
| `ConstEvaluator.PrintedEvaluates` | tools/gen_aidl.py:739-855 | every tree over ints and bools, printed with only the parentheses it needs, evaluates to its value and consumes every token, and fails exactly when the tree has no value |
| `ConstEvaluator.ExprReads` | tools/gen_aidl.py:758-776 | precedence climbing at any level reads exactly the operand that belongs there, left-associative, before whatever follows |
| `ConstEvaluator.ConditionalReads` | tools/gen_aidl.py:758-776 | `?:` nests to the right and both alternatives are read whole, whichever is taken |
| `ConstEvaluator.AcceptedArePrinted` | tools/gen_aidl.py:739-855 | a token list is accepted with a value exactly when it is the print of some tree that has this value |
| `ConstEvaluator.ExprMonotone` | tools/gen_aidl.py:758-776 | what parses with some names known parses to the same with more |
| `ConstOperators.Binding` | tools/gen_aidl.py:727 | of two of C's operators, listed class by class from `||` to `* / %`, the one of the later class takes the operand between them, and the first of two of one class: so 1 + 2 * 3 is 1 + (2 * 3), for any operands |
| `ConstOperators.OperatorMeans` | tools/gen_aidl.py:778-802 | the value of every binary operator between any two numbers, by its arithmetic: quotients round to zero, shifts multiply and divide, bits are taken each by itself, and where there is none |
| `ConstOperators.PrefixMeans` | tools/gen_aidl.py:804-810 | the same for the four prefix operators |
| `ConstOperators.PrefixBinds` | tools/gen_aidl.py:804-810 | which take no more than the operand they stand before |
| `ConstOperators.ConditionalMeans` | tools/gen_aidl.py:764-770 | a condition holds where it is worth anything but 0, and binds looser than every operator in each of its three parts |
| `ConstOperators.LiteralsMean` | tools/gen_aidl.py:830-846 | literals are their values |
| `ConstModel.WrapUnique` | tools/gen_aidl.py:689-693 | nothing else in the signed range of the width differs from the value by a multiple of 2^width |
| `ConstModel.WrapCongruent` | tools/gen_aidl.py:689-693 | and the wrapped value does |
| `ConstNames.KeptAs` | tools/gen_aidl.py:689-722 | what each type keeps of a value: whether it is 0, or the integer of 8, 32 or 64 bits, or of 16 without a sign, that differs from it by a multiple of that size |
| `ConstNames.BareName` | tools/gen_aidl.py:632-644 | a bare name is the member of the innermost declaration around that has one of that name, an enum's enumerators and any declaration's constants |
| `ConstNames.TypeName` | tools/gen_aidl.py:511-529 | a type's name is the first that is declared of: itself, it within each declaration around, in the package, and under each import that ends in its first part |
| `ConstNames.DottedName` | tools/gen_aidl.py:645-650 | a dotted name is the member its last part names of the type the others do |
| `ConstModel.ValueUnique` | tools/gen_aidl.py:582-613 | a constant has at most one value, however deep the names it uses |
| `ConstModel.CircularHasNoValue` | tools/gen_aidl.py:582-589 | a constant that leads back to itself has none |
| `ConstNames.NamesExactly` | tools/gen_aidl.py:758-855 | where 'leads back' goes through every name that stands in the initialiser, in either alternative of a condition too |
| `ConstModel.FuelMonotone` | tools/gen_aidl.py:582-648 | a value found at one depth of names is the value at every greater depth |
| `ConstMemo.Memo.ValueOf` | tools/gen_aidl.py:582-613 | terminates on every model; a value given is the unmemoised one, and nothing is given only where no value can be had without something in progress; the memo only grows |
| `ConstMemo.Memo.Constant` | tools/gen_aidl.py:582-613 | from a memo with nothing in progress: the value, or an error exactly when the constant has none |
| `ConstMemo.Memo.Eval` | tools/gen_aidl.py:620-630 | a whole expression's tokens, leftover ones refused: the value given is the unmemoised one, and nothing is given only where none can be had without something in progress |
| `ConstMemo.Evaluator.Expr` | tools/gen_aidl.py:758-776 | on every token list the cursor loop, asking the memo for names as it goes, comes to the specified value and stops where the specification does, or fails where that has no value without something in progress |
| `ConstMemo.Evaluator.UnaryOperand` | tools/gen_aidl.py:804-855 | the same for literals, names, parentheses and prefix operators, with every error case |
| `ConstMemo.Evaluator.NameValue` | tools/gen_aidl.py:632-650 | a dotted name is resolved in its scope and asked of the memo while the expression is being parsed |
| `ConstMemo.LeadsThrough` | tools/gen_aidl.py:758-855 | what one part came to fixes what the whole comes to, at every depth of names at which it comes to anything |
| `ConstMemo.ExprFailure` | tools/gen_aidl.py:582-589 | a failure found while a constant is in progress means that constant has no value: the in-progress mark never hides one |
| `ConstMemo.ImplicitRun` | tools/gen_aidl.py:601-608 | in a run of enumerators without initialisers the n-th is n - i more than the i-th, wrapped to the backing type once, however often it wrapped on the way |
| `ConstMemo.ImplicitFromZero` | tools/gen_aidl.py:596-608 | and from the first on the n-th is n, wrapped |
| `ConstMemo.InitialisedValue` | tools/gen_aidl.py:590-618 | an enumerator or constant with an initialiser is worth exactly what its tokens evaluate to in its declaration, kept to its enum's width or as its type |
| `ByValue.CheckRecursion` | tools/gen_aidl.py:1429-1444 | accepts a model exactly when containment by value has no cycle |
| `ByValue.HoldsItself` | tools/gen_aidl.py:1434-1444 | the search from one declaration finds it again exactly when it holds itself, through any number of others |
| `ByValue.RankDecreases` | tools/gen_aidl.py:1429-1444 | in an accepted model a rank strictly decreases along every by-value field |
| `ByValue.RankedIsAcyclic` | tools/gen_aidl.py:1429-1444 | and only an accepted model has such a rank |
| `TypeRefs.JoinedBracketsParse` | tools/gen_aidl.py:243-271 | a printed type parses back to itself whichever of its closing brackets the lexer joined into `>>` |
| `TypeRefs.Parser.CloseAngle` | tools/gen_aidl.py:243-250 | takes one bracket off, turning `>>` into `>` in place |
| `TypeRefs.Parser.Type` | tools/gen_aidl.py:252-271 | the recursive cursor parser over the rewritten tokens is the specified parser, on every token list |
| `Parcel.ReadUtf16At` | crates/omni-linux/src/hal/parcel.rs:126-137 | a string written is the string read, padding consumed |
| `Parcel.ReadPackedAt` | crates/omni-linux/src/hal/parcel.rs:139-146 | a byte array written is the one read, padding consumed |
| `Parcel.ReadLengthAt` | crates/omni-linux/src/hal/parcel.rs:148-159 | a length is accepted where the parcel can hold that many elements |
| `Parcel.ReadFileAt` | crates/omni-linux/src/hal/parcel.rs:300-310 | a required descriptor's object is read back to the file that came at its position |
| `Parcel.ReadBinderAt` | crates/omni-linux/src/hal/parcel.rs:316-330 | a binder written as a handle or null is read back |
| `WireBytes.IntBytes` | crates/omni-linux/src/hal/parcel.rs:343-345 | an int is its four bytes, least significant first, two's complement |
| `WireBytes.LongBytes` | crates/omni-linux/src/hal/parcel.rs:347-349 | a long is the int of its low half and then that of its high half |
| `WireBytes.TextBytes` | crates/omni-linux/src/hal/parcel.rs:373-384 | where each unit's two bytes stand in a string, and that all after them are zeros, to a multiple of four and no further |
| `WireBytes.PackedBytes` | crates/omni-linux/src/hal/parcel.rs:391-396 | the same for a byte array |
| `WireBytes.DescriptorBytes` | crates/omni-linux/src/hal/parcel.rs:490-501 | the thirty-two bytes of a descriptor |
| `WireBytes.HandleBytes` | crates/omni-linux/src/hal/parcel.rs:522-532 | the twenty-eight of a handle |
| `WireBytes.NullBinderBytes` | crates/omni-linux/src/hal/parcel.rs:534-542 | and of no binder |
| `WireBytes.NumbersExactly` | tools/gen_aidl.py:376-387 | which integers are values of each primitive and enum type |
| `WireBytes.LeavesExactly` | tools/gen_aidl.py:972-990 | which values a string, a descriptor and a binder have |
| `WireBytes.NullExactly` | tools/gen_aidl.py:939-970 | and that null is one of exactly the nullable types |
| `WireBytes.ElementsExactly` | tools/gen_aidl.py:956-969 | an array's elements are its type's values, but for a byte array's, which are unsigned |
| `WireBytes.BodiesExactly` | tools/gen_aidl.py:1148-1196 | a parcelable has a value for each field, a union one for the field its tag names |
| `WireBytes.NumbersWritten` | tools/gen_aidl.py:975-990 | a long, a double and an enumerator of a long are eight bytes, every other number four |
| `WireBytes.NullsWritten` | tools/gen_aidl.py:972-1012 | the bytes of a null of each type that allows one |
| `WireBytes.ArrayWritten` | tools/gen_aidl.py:992-1011 | an array of bytes or of byte-backed enumerators is its length, one byte an element, and zeros to a multiple of four; any other is its length and what is written for each element |
| `WireBytes.NamedWritten` | tools/gen_aidl.py:1092-1196 | a parcelable is a marker, its size and what is written for each field; a union a marker, its tag and that field |
| `WireBytes.NothingPastTheEnd` | crates/omni-linux/src/hal/parcel.rs:80-85 | no value of any type is read from fewer than four bytes |
| `WireBytes.NumbersRead` | crates/omni-linux/src/hal/parcel.rs:94-123 | what each primitive is read as from any four bytes |
| `WireBytes.LengthsRead` | crates/omni-linux/src/hal/parcel.rs:148-159 | which lengths are null, negative or more than can fit, by the bytes each type of element takes |
| `WireBytes.NullsRead` | tools/gen_aidl.py:939-970 | a null is refused for every type that is not nullable |
| `WireBytes.FixedRead` | tools/gen_aidl.py:967-968 | a fixed-size array of another length is refused, and read like any other where it has its own |
| `WireBytes.MarkersRead` | crates/omni-linux/src/hal/parcel.rs:207-211 | any marker but 0 says a value follows, refused 64 deep |
| `WireBytes.SizesRead` | crates/omni-linux/src/hal/parcel.rs:222-249 | which sizes of a parcelable are refused, and that what follows is read from where it ends |
| `WireBytes.TagsRead` | tools/gen_aidl.py:1185-1196 | a tag that names no field is refused |
| `WireBytes.BindersRead` | crates/omni-linux/src/hal/parcel.rs:316-330 | what any object is read as: a listed handle, weak or strong, a null binder, or refused |
| `WireBytes.DescriptorsRead` | crates/omni-linux/src/hal/parcel.rs:300-310 | a descriptor is present for any marker but 0, and its channel, where it has one, must be one too |
| `WireBytes.DescriptorObjectsRead` | crates/omni-linux/src/hal/parcel.rs:285-295 | which objects are descriptors |
| `Wire.WriteWidth` | crates/omni-linux/src/hal/parcel.rs:335-440 | everything written keeps the 4-byte alignment and is at least as wide as the reader counts on |
| `Wire.RoundTrip` | tools/gen_aidl.py:939-1012 | the emitted read scheme undoes the emitted write scheme for every type and every value nested at most 64 deep, and leaves the bytes that follow untouched; a deeper one is refused |
| `Wire.VersionsAgree` | tools/gen_aidl.py:1148-1165 | across versions the reader gets exactly its own view: extra fields skipped, missing ones defaulted; it refuses exactly when a field without a default is missing, a tag is newer than it knows, or the value nests too deep |
| `Wire.SameVersionSees` | tools/gen_aidl.py:1148-1165 | a reader of the writer's own version sees the value itself |
| `Wire.UnionReads` | tools/gen_aidl.py:1185-1196 | a union's tag selects the field that is read, and an unknown tag is refused |
| `Wire.FieldsRead` | tools/gen_aidl.py:1148-1160 | the reader's fields against the writer's, for every number of either |
| `ParcelObjects.NumberingFinds` | crates/omni-linux/src/hal/parcel.rs:283-295 | counting the descriptors listed before one finds its own file, however descriptors and binders are mixed |
| `ParcelObjects.KindsRead` | crates/omni-linux/src/hal/parcel.rs:278-281 | an object's kind is read exactly where its four bytes are |
| `ParcelObjects.WrittenIsCarried` | crates/omni-linux/src/hal/parcel.rs:490-501 | a transaction that lists objects in the order they were written carries each value's descriptors to their files, whatever was written before and after |
| `ParcelObjects.SentRoundTrip` | crates/omni-linux/src/hal/parcel.rs:283-310 | a value sent with its bytes, offsets and files is read back whole, for every type, exactly when it nests at most 64 deep |
| `ParcelWriter.Writer.WriteValue` | tools/gen_aidl.py:972-1012 | the emitted statements append exactly the value's encoding |
| `ParcelWriter.Writer.WriteBodyOf` | tools/gen_aidl.py:1162-1165 | a parcelable's size is filled in after its fields, and counts them and itself |
| `ParcelWriter.Writer.ParcelableEnd` | crates/omni-linux/src/hal/parcel.rs:485-488 | only the four placeholder bytes change |
| `VkDepends.PrintedMeans` | tools/gen_vk_forward.py:270-308 | every and/or/parenthesis expression, printed, evaluates to its meaning |
| `VkDepends.EvaluatedMonotone` | tools/gen_vk_forward.py:270-308 | whether tokens parse does not depend on the truth assignment, and the value grows with it, for every token list |
| `VkDepends.Binding` | tools/gen_vk_forward.py:291-304 | `+` binds tighter than `,` on either side of it, and parentheses tighter than both |
| `VkDepends.PunctuationIsName` | tools/gen_vk_forward.py:282-289 | punctuation where a name is wanted is looked up as one |
| `VkDepends.Evaluate` | tools/gen_vk_forward.py:270-308 | the evaluator with its nonlocal position computes the specified value, or fails where it is malformed |
| `VkSelection.Selection.Candidates` | tools/gen_vk_forward.py:348-363 | the extensions start out included or excluded, each for the first reason that applies |
| `VkSelection.Selection.DependencyPass` | tools/gen_vk_forward.py:366-373 | one pass in any order, against the set as it shrinks, removes only what no closed set can keep |
| `VkSelection.Selection.DependencyPhase` | tools/gen_vk_forward.py:364-375 | ends at the greatest dependency-closed subset, whatever the order of removal |
| `VkSelection.SatisfiedMonotone` | tools/gen_vk_forward.py:332-339 | what a dependency allows in a set it allows in every larger one |
| `VkSelection.StartsExactly` | tools/gen_vk_forward.py:351-363 | an extension starts out excluded, for the first reason that applies, exactly when it is provisional, of a platform not allowed, or banned, and included otherwise |
| `VkSelection.OneDependency` | tools/gen_vk_forward.py:332-339 | a core version holds where it is forwarded, a Vulkan SC version never, any other name where it is included |
| `VkSelection.Selection.TypePass` | tools/gen_vk_forward.py:376-384 | each extension removed had a type problem in the set as it was by then, each one kept had none, its types looked up in the set as it was at the start |
| `VkSelection.Selection.SelectExtensions` | tools/gen_vk_forward.py:348-385 | terminates; included and excluded partition the Vulkan extensions; each exclusion has its cause: the reason that ruled it out at the start, or a dependency unmet or a type problem in the set as it was by then; at the end every dependency holds and no type problem is left, and where there are none at all what is left is the greatest dependency-closed subset of the candidates |
| `VkSelection.DependsOnlyKeeps` | tools/gen_vk_forward.py:364-375 | removals for unmet dependencies, in any order, never take what some closed subset holds |
| `VkTypes.ResolveAlias` | tools/gen_vk_forward.py:196-201 | the alias loop ends at a name reached by following aliases that is none itself, unless it has come round a cycle of them to a name it has been through |
| `VkTypes.PlainIsItsBytes` | tools/gen_vk_forward.py:502-522 | a copy of a plain value's bytes, anywhere and whatever else memory holds, is the value to any depth of pointers and handles |
| `VkTypes.ElementsCopied` | tools/gen_vk_forward.py:502-522 | the same for each element of an array |
| `VkTypes.PlainExactly` | tools/gen_vk_forward.py:502-522 | the search that gives up on a type met again finds exactly the types made, to some depth, of scalars alone: no pointer, no cycle, no handle the host knows by another name |
| `VkTypes.DeepLeadsTo` | tools/gen_vk_forward.py:502-505 | what a value in memory leads to: its bytes, its members' elements in place or through eight-byte pointers, or what a handle names |
| `VkTypes.Reach` | tools/gen_vk_forward.py:224-241 | the types reached are the least set closed under members, and each is given a path of members that leads to it |
| `VkPlan.BatchPlan` | tools/gen_vk_forward.py:524-563 | a command is batched exactly when it records into a command buffer, returns nothing, and every array it points at can be copied; then every pointer parameter has its copy, in order |
| `VkPlan.PlansAreWellPlanned` | tools/gen_vk_forward.py:524-563 | no parameter is copied twice, and no array's count is itself copied |
| `VkPlan.CopyExactly` | tools/gen_vk_forward.py:539-562 | an array can be copied exactly when it is constant, one pointer deep, packed, plain, and of a length that is fixed, one or given by an integer parameter; and then all its elements are, as many as its type, or the argument the length names, says |
| `VkPlan.CopiedElementMeans` | tools/gen_vk_forward.py:524-563 | each of the elements the caller says an array has is in the copy, to any depth, the value the caller's array held |
| `VkBatching.BuildTable` | tools/gen_vk_forward.py:619-634 | the command table holds exactly the batched commands, each with a copy for every array it points at, and the record layout can carry every one |
| `VkBatching.MeaningKeeps` | tools/gen_vk_forward.py:524-563 | a batched command's call has the caller's arguments, and wherever its arrays' bytes come to lie each of the elements the caller said they have is, to any depth, the caller's |
| `VkWidth.CallArrives` | tools/gen_vk_forward.py:738-748 | every argument list, widened to 64-bit words by the guest and narrowed by the host, arrives as it was passed: signs, widths and float bits |
| `VkWidth.RangesExactly` | tools/gen_vk_forward.py:82-94 | the kinds a parameter may have and the values of each, in numbers |
| `VkWidth.WordsSent` | tools/gen_vk_forward.py:738-748 | the word sent is the value's 64-bit two's complement |
| `VkWidth.NarrowInRange` | tools/gen_vk_forward.py:638-645 | whatever words are sent, the host's driver gets values of its parameters' types |
| `VkWidth.ResultReturns` | tools/gen_vk_forward.py:766-772 | a result code comes back the same, negative ones included |
| `VkRecord.WriteRecord` | crates/omni-linux/device/src/vk/driver.c:255-269 | a record holds its header, its arguments with each array's address replaced by its copy's, and the copies; nothing before it changes |
| `VkRecord.HeadBytes` | crates/omni-linux/device/src/vk/driver.c:256-257 | a record starts with four little-endian words: the command, its number of arguments, its size and 0 |
| `VkReplay.RecordMeans` | crates/omni-linux/src/gpu/mod.rs:648-672 | a record means, whenever it is replayed, what its command meant when it was made |
| `VkReplay.ReplayLaid` | crates/omni-linux/src/gpu/mod.rs:633-681 | the host accepts every batch the guest lays out and makes its commands in order, whatever the caller has done to its memory since |
| `VkReplay.ReplayBatch` | crates/omni-linux/src/gpu/mod.rs:633-681 | on any bytes at all: the commands made before the first record refused, and whether the whole batch is accepted |
| `VkReplay.RefusedExactly` | crates/omni-linux/src/gpu/mod.rs:651-675 | which records are refused: cut short, more than 32 arguments, a size that cannot be, not batchable, of another count or another command buffer; any other is made, and the next looked for where its size says |
| `VkReplay.BatchesRefused` | crates/omni-linux/src/gpu/mod.rs:633-640 | a batch over a mebibyte, or of no multiple of 8 bytes, is refused whole, and one whose count is not that of the commands made is not accepted |
| `VkReplay.HostSees` | crates/omni-linux/src/gpu/mod.rs:629-632 | the host's driver sees the batch's bytes where the batch lies and everything else as it is |
| `VkReplay.LaidGrows` | crates/omni-linux/device/src/vk/driver.c:250-269 | adding a record leaves those already there as they were |
| `VkDriver.BatchedMeant` | crates/omni-linux/device/src/vk/driver.c:185-198 | what `send_batch` sends is accepted whole, its length and count included |
| `VkDriver.SendBatch` | crates/omni-linux/device/src/vk/driver.c:185-198 | the host gets exactly the commands the batch held, and the batch is empty |
| `VkDriver.Synced` | crates/omni-linux/device/src/vk/driver.c:200-210 | flush and end send what is held, begin and reset drop it, and only a flush keeps the buffer |
| `VkDriver.Record` | crates/omni-linux/device/src/vk/driver.c:234-270 | sent and held commands together gain exactly this one, at the end, whichever way it goes: not batching, too large, no memory, full batch or room; it is put off exactly when it takes at most 16384 bytes and 32 arguments and there is a batch, after sending the one it does not fit |
| `VkDriver.Driver.StartOver` | tools/gen_vk_forward.py:759-761 | begin and reset drop what was held with what was sent |
| `VkDriver.Driver.EndBuffer` | tools/gen_vk_forward.py:759-761 | after the end the host has every command recorded |
| `VkDriver.Driver.Send` | tools/gen_vk_forward.py:759-761 | a command that is not batched comes after all those before it |
| `VkDriver.Driver.RecordCommand` | tools/gen_vk_forward.py:749-758 | a batched command's effect is that of sending it at once, its arrays as they are at the call |
| `VkDriver.Driver.PoolReset` | crates/omni-linux/device/src/vk/driver.c:212-231 | every command buffer of the pool, and no other, starts over |
| `VkDriver.Driver.PoolDestroy` | crates/omni-linux/device/src/vk/driver.c:212-231 | every command buffer of the pool, and no other, is gone |
| `VkDriver.Driver.Run` | crates/omni-linux/device/src/vk/driver.c:95-107 | after any sequence of calls, each live command buffer's host list followed by its unsent batch is the list that sending every command at once would have made |
| `VkBatching.Session` | crates/omni-linux/device/src/vk/driver.c:95-107 | with the table built from the signatures, after any calls every command the host holds or is still to be sent was made by one of the program's calls on that command buffer; if by a batched one, all the elements the caller said each array has are, to any depth, those it held at that call |
| `VkBatching.HostReadsElements` | crates/omni-linux/src/gpu/mod.rs:648-672 | however late a record is replayed, each array the host's driver is pointed at holds, to any depth, all the elements the caller said its array has, as they were at the call; one of no type, its bytes |
| `ShimSites.StepCore` | crates/dynarmic-sys/shim/od_dynarmic.cpp:914-929 | every step of any thread, throws included, keeps the claims a tiling, `seen` at most the noted count, each list of drops the sites it is for, and a jit's flag set exactly while it runs; sites, claims and `seen` only grow |
| `ShimSites.StepAccounted` | crates/dynarmic-sys/shim/od_dynarmic.cpp:914-939 | every step keeps every unmasked block either unclaimed or reached by some thread, but for a throw, which does exactly when it leaves no site that a cached block holds unmasked |
| `ShimSites.NeverStuck` | crates/dynarmic-sys/shim/od_dynarmic.cpp:896-941 | a thread in a call can always go on, and a load may return any value stored by then |
| `ShimSites.BlocksGone` | crates/dynarmic-sys/shim/od_dynarmic.cpp:913-929 | a block leaves the cache when it is evicted or an address of one of its locations is dropped, at no other step, and only a translation puts one there |
| `ShimSites.EachSiteWonOnce` | crates/dynarmic-sys/shim/od_dynarmic.cpp:917-921 | after any run of any threads each seen site was won by exactly one compare-and-swap, and no unseen one was |
| `ShimSites.UnmaskedExactly` | crates/dynarmic-sys/shim/od_dynarmic.cpp:917-939 | once every winner has finished, a cached block holds a seen site without its mask exactly when some throw left that site to no thread while the block was cached |
| `ShimSites.SeenSitesAreMasked` | crates/dynarmic-sys/shim/od_dynarmic.cpp:921-928 | so where no throw leaves a seen site that no thread reaches, no cached block holds one without its mask |
| `ShimSites.LeftStaysUnmasked` | crates/dynarmic-sys/shim/od_dynarmic.cpp:917-939 | a throw that leaves a site leaves its blocks unmasked through every run that neither evicts them nor drops an address of theirs, and no thread ever reaches the site |
| `ShimSites.LeftForGood` | crates/dynarmic-sys/shim/od_dynarmic.cpp:917-939 | where no other site ever noted has its address, nothing any thread does later drops it, whatever is claimed |
| `ShimSites.NothingLeftAt` | crates/dynarmic-sys/vendor/dynarmic/src/dynarmic/backend/x64/a64_emit_x64_memory.cpp:64-70 | the sites fetched for a claim start at its first, so each drop removes the blocks of that very site |
| `ShimSites.ThrowLosesSites` | crates/dynarmic-sys/shim/od_dynarmic.cpp:931-939 | a run of one thread that throws between its claim and its first drop, and leaves a seen site unmasked |
| `ShimSites.NeverEnteredExecuting` | crates/dynarmic-sys/shim/od_dynarmic.cpp:896-904 | whatever calls callbacks make, `Run` is never entered on a jit whose flag is set |
| `ShimSites.RefusedExactly` | crates/dynarmic-sys/shim/od_dynarmic.cpp:896-904 | a call is refused, and changes nothing, exactly when its jit is running; any other goes on to enter it |
| `ShimSites.RefusedLeaveNoTrace` | crates/dynarmic-sys/shim/od_dynarmic.cpp:901-903 | any run with its refused calls taken out is still a run, and ends in the same state |
| `ShimSites.InsideOnce` | crates/dynarmic-sys/shim/od_dynarmic.cpp:896-904 | over any run of any threads, each jit has been gone into at most once more than it has been come out of, and exactly once more while its flag is set |
| `ShimRanges.Clamp` | crates/dynarmic-sys/shim/od_dynarmic.cpp:1010-1044 | for all 64-bit addresses and lengths of at least 1, the closed interval is exactly the requested range cut at 2^64 |
| `ShimRanges.UnclampedRight` | crates/dynarmic-sys/shim/od_dynarmic.cpp:1010-1020 | without the clamp it is right exactly when the range does not pass the end; one that does is lost whole |
| `ShimRanges.UnclampedZero` | crates/dynarmic-sys/shim/od_dynarmic.cpp:1010-1018 | length 0 would mean nothing, except at address 0, where it would mean everything |
| `ShimRanges.LengthBoundWraps` | crates/dynarmic-sys/shim/od_dynarmic.cpp:1030-1037 | the bound written as a length is right exactly for every address but 0 |
| `ShimRanges.Translations.InvalidateRange` | crates/dynarmic-sys/shim/od_dynarmic.cpp:757-773 | exactly the blocks that hold a requested byte go, none where nothing is requested |
| `ShimRanges.MeetsExactly` | crates/dynarmic-sys/shim/od_dynarmic.cpp:1010-1044 | comparing bounds tells exactly whether a block and a range have a byte in common |
| `ShimRanges.Translations.Run` | crates/dynarmic-sys/shim/od_dynarmic.cpp:1010-1044 | after any run guest memory and the cached blocks are those the events specify; a block differs from memory only at addresses written and not yet invalidated, and where every write is covered each block is what memory holds |
| `ShimRanges.DirtyExactly` | crates/dynarmic-sys/shim/od_dynarmic.cpp:1010-1044 | those addresses are exactly the ones with a write and no invalidation after it |
| `ShimRanges.CoveredWritesLeaveNothing` | crates/dynarmic-sys/shim/od_dynarmic.cpp:1010-1044 | when every write is followed by invalidations of its bytes, none is left |
| `ShimRanges.CoveredWritesKeepBlocks` | crates/dynarmic-sys/shim/od_dynarmic.cpp:1010-1044 | then every translation that survives the run is of the bytes guest memory holds at its end |
| `ShimRanges.AllStepsFresh` | crates/dynarmic-sys/shim/od_dynarmic.cpp:757-773 | every run of writes, translations, evictions and invalidations keeps each block equal to memory but for what is dirty |
| `Dalvik.NeverLosesSync` | tools/dexdis.py:230-279 | every sequence of instructions of all 26 formats, switch tables and array data disassembles to one line an instruction, at its own code-unit offset, with every table skipped exactly |
| `Dalvik.InstructionDecodes` | tools/dexdis.py:244-278 | every instruction of every format is its size and prints its own operands, signed fields and branch targets included |
| `Dalvik.BranchPrintsLabel` | tools/dexdis.py:246-263 | a branch prints the offset of the item it leads to |
| `Dalvik.TableSkipped` | tools/dexdis.py:235-243 | a table's header gives exactly its own size |
| `Dalvik.OffsetsRise` | tools/dexdis.py:230-279 | of any code units at all, the lines come at rising offsets inside the code |
| `Dalvik.Disassemble` | tools/dexdis.py:230-279 | the loop gives the specified lines, or fails where an instruction is cut short |
| `DalvikTable.FormatsExactly` | tools/dexdis.py:144-205 | every one of the 256 opcodes has the format the opcode map gives it |
| `DalvikTable.KindsExactly` | tools/dexdis.py:222-232 | which opcodes' indices name strings, types, fields and methods |
| `DalvikTable.ShortFieldsExactly` | tools/dexdis.py:249-252 | which fields each format of one code unit can hold, in numbers |
| `DalvikTable.FieldsExactly` | tools/dexdis.py:253-263 | the same for two |
| `DalvikTable.LongFieldsExactly` | tools/dexdis.py:264-273 | and for three and five |
| `DalvikTable.ItemsExactly` | tools/dexdis.py:235-248 | and which calls, switch tables and array data there can be |
| `DalvikTable.CutShort` | tools/dexdis.py:235-250 | code that ends inside an instruction is refused, but for the last unit of a polymorphic call |
| `DexClass.UlebRoundTrip` | tools/dexdis.py:57-65 | reading undoes ULEB128 for every number, whatever bytes follow |
| `DexClass.Uleb` | tools/dexdis.py:57-65 | the shifting loop reads the same number and stops right after it, or fails exactly when the bytes run out |
| `DexClass.MethodsRoundTrip` | tools/dexdis.py:113-132 | every direct and virtual method comes back with its own index and code offset, the fields skipped |
| `DexClass.AscendingExactly` | tools/dexdis.py:125-134 | the lists that can be written are those whose indices do not go down, repeated ones included |
| `DexClass.OneLoop` | tools/dexdis.py:124-132 | the one loop that restarts its index at the first virtual method is the two lists read one after the other |
| `DexClass.ListMethods` | tools/dexdis.py:113-132 | the reader gives that list for any bytes, or fails exactly where they run out |
| `VersionInfo.RoundTrip` | tools/make_icon.py:70-81 | for every tree whose fields fit 16 bits a recursive reader recovers the tree and its length, whatever follows |
| `VersionInfo.RefusedExactly` | tools/make_icon.py:70-81 | which blocks are refused: those whose length does not fit its 16-bit field |
| `VersionInfo.LengthField` | tools/make_icon.py:75-79 | each node's length field is its length in bytes |
| `VersionInfo.ChildAligned` | tools/make_icon.py:70-81 | every child starts on a 4-byte boundary, and what lies there is its own block |
| `VersionInfo.BlockWithChildrenAligned` | tools/make_icon.py:92-94 | a block with children is a multiple of 4 long, so passing it unpadded is the same as padded |
| `IconFile.WalkRecovers` | tools/make_icon.py:64-67 | walking a resource file by its size fields recovers every entry |
| `IconFile.HeadBytes` | tools/make_icon.py:64-67 | the thirty-two bytes before an entry's data |
| `IconFile.ResWalks` | tools/make_icon.py:97-103 | the resource file walks back to its icons, their group and the version information, each of its kind and number |
| `IconFile.GroupNamesIcons` | tools/make_icon.py:97-103 | each row of the group gives its image's length and the number of the entry that holds it |
| `IconFile.GroupBytes` | tools/make_icon.py:99-102 | the bytes of a group's head and of a row |
| `IconFile.IcoFindsImages` | tools/make_icon.py:55-61 | each row's offset and length lead to exactly that image's bytes |
| `IconFile.IcoBytes` | tools/make_icon.py:55-60 | and of the file's |
| `IconFile.Ico` | tools/make_icon.py:55-61 | the loop that carries the offset along builds that file |
| `IconFile.Res` | tools/make_icon.py:97-103 | the loop over images builds those entries and their group together |
| `PngFilters.ImageRoundTrip` | tools/shot_stats.py:33-54 | for every image and every choice of a filter for each row, undoing the filters gives back the rows |
| `PngFilters.UnfilterFiltered` | tools/shot_stats.py:37-52 | one row: each of the five filters undone, Average and Paeth included |
| `PngFilters.FilterUnfiltered` | tools/shot_stats.py:37-52 | and filtering the result again gives the stored bytes |
| `PngFilters.PaethNearest` | tools/shot_stats.py:48-51 | the predictor is the nearest of the three neighbours, the earlier of left, above, above-left where two are as near |
| `PngFilters.AverageRounds` | tools/shot_stats.py:46-47 | the average of two bytes whose sum may pass a byte, rounded down |
| `PngFilters.UnfilterRow` | tools/shot_stats.py:37-52 | the row rewritten in place, left to right, is the specified one |
| `PngFilters.RgbaRows` | tools/shot_stats.py:33-54 | every row undone against the one above it, the first against zeros |
| `Fingerprint.OneByteChangesFingerprint` | tools/gen_gl_forward.py:46-69 | tables whose texts have one length and differ in exactly one byte have different fingerprints |
| `Fingerprint.StepBijective` | tools/gen_gl_forward.py:46-51 | each step can be undone: by its byte to the state before it, and by that state to its byte |
| `Fingerprint.HashInjective` | tools/gen_gl_forward.py:46-51 | different states stay different whatever bytes follow |
| `Fingerprint.TextInjective` | tools/gen_gl_forward.py:68-69 | different tables have different texts |
| `Fingerprint.RowText` | tools/gen_gl_forward.py:68-69 | a row's text is its name, its parameters and its return class, ended by `:`, `:` and `;`, which none of them may hold |
| `Fingerprint.TextParses` | tools/gen_gl_forward.py:68-69 | the text parses back to its rows |
| `Fingerprint.Fnv1a64` | tools/gen_gl_forward.py:46-51 | the loop computes the specified hash |
| `Fingerprint.KnownHashes` | tools/gen_gl_forward.py:46-51 | the hashes of nothing and of one letter are those published for 64-bit FNV-1a |
| `Fingerprint.XorBitAt` | tools/gen_gl_forward.py:49 | exclusive or takes each bit by itself |
| `CrashSafe.StepGood` | crates/dynarmic-sys/tools/mutate_shim.py:319-440 | every step of the run, a kill, an exception or a torn file included, keeps each file or its backup as it was |
| `CrashSafe.NothingLost` | crates/dynarmic-sys/tools/mutate_shim.py:319-440 | over any number of runs killed anywhere, no original is lost, and each mutant under test was made from the original text with every other file as it was |
| `CrashSafe.RecoveryRestoresAll` | crates/dynarmic-sys/tools/mutate_shim.py:319-337 | however earlier runs ended, starting again puts every file back, before anything else is read, in a bounded number of steps |
| `CrashSafe.TornBackupLosesFile` | crates/dynarmic-sys/tools/mutate_shim.py:403-404 | a torn backup is taken for the original: the next run, from its start and before it reads anything, writes it over a file that was intact |
| `CrashSafe.TornFileLoses` | crates/dynarmic-sys/tools/mutate_shim.py:405-406 | a torn file is recoverable exactly when its backup is there |
| `CrashSafe.Find` | crates/dynarmic-sys/tools/mutate_shim.py:394-401 | the first match of a pattern at or after a position |
| `CrashSafe.MutatedExactly` | crates/dynarmic-sys/tools/mutate_shim.py:394-406 | there is a mutant exactly where the pattern matches at one place, but for matches that overlap it, and it is the text with that one replaced, for the empty pattern too |
| `CrashSafe.RowTested` | crates/dynarmic-sys/tools/mutate_shim.py:391-440 | step by step: a row with no mutant is passed over, any other is under test three steps on and gone without trace at the sixth |
| `CrashSafe.RunEnds` | crates/dynarmic-sys/tools/mutate_shim.py:391-440 | from any row on every one has its turn, and the program ends with the tree as it was |
| `CrashSafe.RaiseRestores` | crates/dynarmic-sys/tools/mutate_shim.py:436-440 | an exception between the backup and the tests' end puts the file back, discards the backup and ends the run |
| `CrashSafe.Tree.RestoreStaleBackups` | crates/dynarmic-sys/tools/mutate_shim.py:319-337 | every file of the table is put back, every backup removed, and no other file touched |
| `CrashSafe.Tree.MutateOne` | crates/dynarmic-sys/tools/mutate_shim.py:391-440 | the tests run against the mutant of the original, and nothing is left of it |
| `CrashSafe.Tree.MutateAll` | crates/dynarmic-sys/tools/mutate_shim.py:391-440 | every selected mutation is made from the original text, and the tree ends as it began |

## Left out

- ELF headers, `.eh_frame_hdr`, the PLT map, provider groups and the report of `init_reach.py`: the closure starts from the parsed tables.
- String, float, character and list constants, and `{}` initialisers, of `gen_aidl.py`: the expression trees are over ints and bools.
- ConstMemo.Evaluator.UnaryOperand: `null` raises here and is the value None in the original (so `null ? 1 : 2` is 2 there); strings, floats and lists are absent.
- The values `defaultable` gives for types that contain each other through fixed arrays, Rust text layout and naming.
- Wire.RoundTrip: strings are UTF-16 units, so the conversion from UTF-8, lossy for lone surrogates, is not modelled; a binder's stability, which readers ignore, is written as one value.
- Wire.VersionsAgree: host-service binders, which the broker translates before a reader sees them, are inputs (`Incoming`).
- Parcel.ReadUtf16At: stops at UTF-16 units; the lossy conversion to a string is not modelled.
- Parcel.ReadFileAt: the file is looked up by position; that the reader's numbering of listed descriptors comes to that is `ParcelObjects.WrittenIsCarried`.
- TypeRefs.Parser.Type: annotations and array dimensions before and after a type are not parsed.
- Tokenising by regular expression, of `depends` and of AIDL.
- VkSelection.Selection.TypePass: whether a type is a problem is a parameter; the phase is not monotone, so with type problems no greatest set is claimed, only each removal's cause and that no problem is left at the end.
- Reports, command tables and the formatting of generated text of `gen_vk_forward.py`.
- VkPlan.BatchPlan: a parameter with no forwarding rule stops the generator before this point; here it is not batched.
- VkDriver.Driver.Run: the transport is taken to work, so a batch or command that is refused or lost is not modelled; nor are the locks, the list of free batches, the timing of the host's configuration (it is a parameter of begin) and the inline request form.
- VkRecord.WriteRecord: a batch's fixed buffer is a value replaced at each write, and sizes are unbounded; arrays that exist in a 64-bit address space cannot make them wrap.
- VkTypes.Reach: a path is kept as its steps, not as text.
- ShimSites.StepCore: one cache, and one jit to a thread, so the jit a callback calls is its own; a load may be stale but accesses are otherwise in one order, and each call into dynarmic is one step, so a translation under way while its site is noted is not modelled.
- The arm64 census hand-over, shared regions, snapshots and counters of the shim.
- ShimRanges.Translations.Run: an invalidation asked for while a jit runs takes effect at once; dynarmic defers it to the end of that run.
- Dalvik.NeverLosesSync: an index is printed as its table and number, since the strings, types, fields and methods it names are looked up in the file.
- DexClass.ListMethods: a method is its index; its name and prototype are looked up in the file.
- IconFile.ResWalks: sizes that do not fit their fields stop the original, and are excluded here by a precondition.
- Bitmaps, the X11 icon and the particular strings of `version_info` of `make_icon.py`.
- PngFilters.RgbaRows: starts from decompressed data that holds every row; chunks, inflation and the histogram are not modelled.
- Reading the signature table and checking its order in `gen_gl_forward.py`; rows are bytes, so their encoding is not modelled.
- Running the tests, classifying their outcome, options and the pre-flight pass of `mutate_shim.py`, none of which writes a file.
- `tools/call_sites.py`, whose heuristic has no exact specification, pinned counts, benchmarks, build scripts and the user interface.
