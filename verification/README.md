# pretty_index in Dafny

`pretty_index` is a single-header C++ library. It turns a
`std::type_info` into a readable, portable type name and uses that name as
a key for `std::map` and `std::unordered_map`. The name is what the
standard library reports, normalised by vendor-specific rewrite rules:
- Dinkumware/MSVC: drop `class ` and `struct `, and space the commas.
- libc++: collapse the inline namespace `std::__1::` to `std::`.
- libstdc++: spell out `std::string`.
- Every vendor: group `> >` as `>>`.

The rules are built from four in-place C string utilities: `str_dup`,
`str_cut`, `str_rep` and `str_shrink_to_fit`. The key hashes its name with
MurmurHashNeutral2 and orders names with `strcmp`.

The model has six modules:

- `CStrings` (cstrings.dfy) gives the meaning of the utilities on values.
  A C string is a `seq<char>` of bytes 1 to 255.
  - `FindFrom` is `strstr`.
  - `CutAll` deletes the leftmost match and searches again from the start.
  - `ReplaceAll` is leftmost non-overlapping replacement that resumes
    after the inserted text.
  - Lemmas state what these functions promise.
- `Buffers` (buffers.dfy) holds the utilities as methods on `array<char>`
  heap blocks. These include `strlen`, `strstr`, `memmove`, `strncpy` and
  `realloc`, and `str_dup`, `str_cut`, `str_rep` and `str_shrink_to_fit`
  with their loops. Each method is proved to produce the text the
  `CStrings` functions describe. They follow the code, with one exception:
  when `str_rep` shrinks the text, it sizes the block with the corrected
  count of matches (see "## Findings").
- `Demangling` (demangle.dfy) has two parts:
  - `demangle` as a function of a `Vendor`, a `Flags` record of the three
    build switches, the name and the outcome of `abi::__cxa_demangle`.
  - `DemangleName`, the same pipeline on heap buffers, proved to agree
    with it.
  - `DemanglingExamples` (demangle_examples.dfy) works through example
    names, among them the `std::string` spellings the header's
    documentation mentions.
- `Murmur` (murmur.dfy) holds MurmurHashNeutral2 over `bv32`/`bv8`.
  - The specification is a left fold over 4-byte blocks, followed by the
    tail switch and the avalanche.
  - The loop as written is proved equal to it.
  - `MurmurExamples` (murmur_examples.dfy) has the hashes of `int` and
    `double`.
- `TypeKey` (key.dfy) holds the class `PrettyIndex` with `name`,
  `hash_code` and the six operators.
  - It has a model of `strcmp` and an independent lexicographic order
    built on the longest common prefix.
  - It proves trichotomy, transitivity and hash/equality coherence.
- `Wrappers` (wrappers.dfy) holds `Option` and `Result`.

Where the header's comments or its documentation say one thing and the
code does another, the model follows the code:

- The documentation at lines 34-38 and 59-61 gives the libstdc++ result for
  `std::string` as `std::basic_string<char, ...>`. The code at line 261
  replaces `std::string` with the literal
  `std::basic_std::string<char, std::char_traits<char>, std::allocator<char> >`.
  The result therefore starts with `std::basic_std::string`
  (`DemanglingExamples.LibStdCppString`).
- A deletion in `str_cut` can create a new match across the cut point. The
  search restarts at the start of the buffer (line 112), so that match is
  deleted as well (`CStrings.CutAllRemovesAll`).
- `str_rep` moves the tail once per occurrence, with one `memmove` and one
  `strncpy` each (lines 153-155 and 165-167). It does not process the
  occurrences right to left.

## Model

| member | source | states |
|---|---|---|
| CStrings.FindFrom | pretty_index/pretty_index.hpp:112 | a match found by `strstr` lies at or after the start and inside the text |
| CStrings.FindFromSpec | pretty_index/pretty_index.hpp:112 | `strstr` finds the leftmost match at or after the start; it finds none exactly when no position matches |
| CStrings.CutAll | pretty_index/pretty_index.hpp:108-118 | deleting matches never lengthens the text |
| CStrings.CutAllRemovesAll | pretty_index/pretty_index.hpp:112-114 | after `str_cut` the pattern occurs nowhere, not even across a former cut point |
| CStrings.CutAllAbsent | pretty_index/pretty_index.hpp:112 | a text without the pattern is left unchanged |
| CStrings.CutCount | pretty_index/pretty_index.hpp:112-114 | the number of deletions `str_cut` makes, each removing the whole pattern, fits in the text |
| CStrings.CutAllLength | pretty_index/pretty_index.hpp:113 | each deletion shortens the text by exactly the pattern length |
| CStrings.CutAllCString | pretty_index/pretty_index.hpp:113 | deleting from a C string leaves a C string (no NUL appears) |
| CStrings.CutAllIdempotent | pretty_index/pretty_index.hpp:108-118 | cutting a pattern a second time deletes nothing more |
| CStrings.ReplaceFromLength | pretty_index/pretty_index.hpp:150-158 | each replacement changes the length by `updated_len - original_len` |
| CStrings.ReplaceFrom | pretty_index/pretty_index.hpp:151-158 | the rewrite loop from a position: a replacement at least as long never shortens the rest of the text, a shorter one never lengthens it |
| CStrings.ReplaceAll | pretty_index/pretty_index.hpp:151-158 | `str_rep`'s text: never shorter than before when `updated` is at least as long as `original`, never longer when it is at most as long, which is why growing reallocates first and shrinking afterwards |
| CStrings.CountFrom | pretty_index/pretty_index.hpp:151-158 | the replacements the rewrite loop makes do not overlap: their total length fits in the text |
| CStrings.ReplaceAllAbsent | pretty_index/pretty_index.hpp:151 | a text without `original` is left unchanged |
| CStrings.ReplaceFromSelf | pretty_index/pretty_index.hpp:157 | replacing a pattern by itself changes nothing: scanning resumes after the inserted text, so the loop ends even though `updated` contains `original` |
| CStrings.ReplaceFromCString | pretty_index/pretty_index.hpp:153-155 | replacing with C-string text keeps a C string |
| CStrings.ReplaceAllJoin | pretty_index/pretty_index.hpp:151-158 | when no match can span the join of two texts, replacing in the whole is replacing in each part |
| CStrings.ReplaceCommaSpaces | pretty_index/pretty_index.hpp:192 | after `","` becomes `", "`, every comma is followed by a space |
| CStrings.MatchesFrom | pretty_index/pretty_index.hpp:143 | the matches the size loop counts start at distinct positions that leave room for the pattern, so there are at most `strlen - original_len + 1` of them |
| CStrings.MatchesFromStep | pretty_index/pretty_index.hpp:143 | starting the size loop's search one character later never gains a match and loses at most one, the match there |
| CStrings.MatchesFromMonotone | pretty_index/pretty_index.hpp:143 | starting the size loop's search earlier never counts fewer matches |
| CStrings.MatchesAtLeastCount | pretty_index/pretty_index.hpp:143-158 | the size loop counts at least as many matches as the rewrite loop replaces |
| CStrings.MatchesEqualCount | pretty_index/pretty_index.hpp:143 | for a pattern that cannot overlap itself, the number of matches the size loop counts equals the number of replacements |
| CStrings.OverlappingMatchesExceedCount | pretty_index/pretty_index.hpp:143 | with a self-overlapping pattern the size loop counts more matches than the rewrite performs ("aa" in "aaa": 2 against 1) |
| Buffers.StrLen | pretty_index/pretty_index.hpp:113 | `strlen` of a buffer holding a C string is its length from the given offset |
| Buffers.StrStr | pretty_index/pretty_index.hpp:112 | `strstr` on the buffer returns the leftmost match `FindFrom` gives |
| Buffers.MemMove | pretty_index/pretty_index.hpp:113 | `memmove` copies the source cells to the destination, whichever way the two ranges overlap, and changes no other cell |
| Buffers.StrNCpy | pretty_index/pretty_index.hpp:155 | `strncpy(it, updated, updated_len)` writes the characters of `updated`, no terminator, and changes nothing else |
| Buffers.Realloc | pretty_index/pretty_index.hpp:104 | `realloc` gives a block of the requested size starting with as much of the old block as fits |
| Buffers.StrDup | pretty_index/pretty_index.hpp:125-130 | `str_dup` gives a new block of exactly `strlen + 1` cells holding the string |
| Buffers.StrShrinkToFit | pretty_index/pretty_index.hpp:103-106 | `str_shrink_to_fit` keeps the text in a block of exactly `strlen + 1` cells |
| Buffers.StrCut | pretty_index/pretty_index.hpp:108-118 | `str_cut` leaves exactly `CutAll` of the text, in a block of exactly its length + 1 |
| Buffers.MoveTailBack | pretty_index/pretty_index.hpp:113 | moving the text after a match back over the match, terminator included, deletes the match |
| Buffers.MemNeeded | pretty_index/pretty_index.hpp:137-143 | the block size, with matches counted the way the rewrite finds them, is exactly the length of the result + 1 |
| Buffers.MemNeededAsWritten | pretty_index/pretty_index.hpp:137-143 | the size loop as written gives `strlen + 1 + diff × (matches counted one character apart)` |
| Buffers.ReplaceInPlace | pretty_index/pretty_index.hpp:150-158 | the rewrite loop of `str_rep` leaves exactly `ReplaceAll` of the text when the block is large enough |
| Buffers.ReplaceAt | pretty_index/pretty_index.hpp:153-155 | one `memmove` plus `strncpy` replaces the match at the cursor by `updated` |
| Buffers.StrRep | pretty_index/pretty_index.hpp:132-177 | `str_rep` leaves exactly the leftmost non-overlapping replacement of `original` by `updated`. When growing, the block is resized before the rewrite to the size counted as written (`strlen + 1 + diff ×` overlapping matches). When shrinking, it is resized after the rewrite to exactly the result length + 1 (the corrected count, see Findings) |
| Buffers.CloseGap | pretty_index/pretty_index.hpp:113 | `memmove(a, b, strlen(b) + 1)` closes the gap between two positions of the text |
| Buffers.RepStep | pretty_index/pretty_index.hpp:153-155 | one round of the loop turns the buffer into the text with that match replaced |
| Buffers.RepProgress | pretty_index/pretty_index.hpp:157 | resuming at `it + updated_len` after a replacement still leads to the final text |
| Buffers.HoldsKept | pretty_index/pretty_index.hpp:116 | a reallocated block that keeps the first cells keeps the C string |
| Buffers.MemNeededAgrees | pretty_index/pretty_index.hpp:143 | for a pattern that cannot overlap itself, the size as written equals the length of the result + 1 |
| Buffers.AsWrittenBlockLargeEnough | pretty_index/pretty_index.hpp:137-148 | when the text grows, the size counted as written is at least the result length + 1, so the rewrite after the first `realloc` stays inside the block |
| Buffers.AsWrittenBlockTooSmall | pretty_index/pretty_index.hpp:143 | "aa" replaced by "a" in "aaa": the size as written is 2 while the result needs 3 cells |
| Demangling.FailureMessage | pretty_index/pretty_index.hpp:230 | the message of the failure starts with the name |
| Demangling.CutInlineNamespaces | pretty_index/pretty_index.hpp:237-245 | collapsing inline namespaces never lengthens the text |
| Demangling.UnwrapTypedefs | pretty_index/pretty_index.hpp:259-262 | the libstdc++ rule only lengthens a name, and leaves a name without `std::string` unchanged |
| Demangling.GroupAngleBrackets | pretty_index/pretty_index.hpp:264-268 | grouping only shortens a name, and leaves a name without `" >"` unchanged |
| Demangling.VendorRules | pretty_index/pretty_index.hpp:184-262 | the Dinkumware rules never fail; a failure is either the demangler's, with its message, or a libc++ `std::__` without `::` |
| Demangling.Demangle | pretty_index/pretty_index.hpp:184-273 | `demangle` fails exactly when a demangler status is nonzero (libc++, libstdc++) or a libc++ `std::__` has no `::` after it; a nonzero status gives the message `name + " - demangling failed"` |
| Demangling.CutInlineLoop | pretty_index/pretty_index.hpp:243-245 | the libc++ loop on the buffer succeeds exactly when `CutInlineNamespaces` does, and then leaves its text |
| Demangling.CutInlineNamespacesInPlace | pretty_index/pretty_index.hpp:237-246 | the libc++ rule on the buffer, then `str_shrink_to_fit`: the collapsed text in a block of its length + 1, or the same failure |
| Demangling.VendorRulesInPlace | pretty_index/pretty_index.hpp:186-262 | each vendor's rules on heap buffers give `VendorRules`' text in a block of its length + 1, or its failure |
| Demangling.DemangleName | pretty_index/pretty_index.hpp:184-273 | `demangle` on heap buffers gives `Demangle`'s text in a block of its length + 1, or `Demangle`'s failure |
| Demangling.PatternsAreCStrings | pretty_index/pretty_index.hpp:189-268 | every pattern and replacement `demangle` uses is a C string |
| Demangling.CutInlineUnfold | pretty_index/pretty_index.hpp:244 | one round moves the text from the `::` found at least 7 characters on back to just after `std` |
| Demangling.CutInlineFails | pretty_index/pretty_index.hpp:244 | a `std::__` with no `::` after it fails the rule |
| Demangling.CutInlineDone | pretty_index/pretty_index.hpp:243 | a text without `std::__` is left unchanged |
| Demangling.CutInlineErrors | pretty_index/pretty_index.hpp:244 | the only failure of the libc++ rule is a missing `::` |
| Demangling.InlineStep | pretty_index/pretty_index.hpp:241-245 | `std::__x::z` with no `:` in `x` collapses to `std::z` |
| Demangling.CutInlineRemovesAll | pretty_index/pretty_index.hpp:243 | after the libc++ rule no `std::__` is left, including ones exposed by an earlier collapse |
| Demangling.CutInlineCString | pretty_index/pretty_index.hpp:244 | the libc++ rule keeps a C string |
| Demangling.TidyDinkumware | pretty_index/pretty_index.hpp:188-192 | after the Dinkumware rules every comma is followed by a space |
| Demangling.DemangleCString | pretty_index/pretty_index.hpp:184-273 | `demangle` of C strings is a C string |
| Demangling.RepPatternsDoNotOverlap | pretty_index/pretty_index.hpp:191-192 | no pattern `demangle` hands to `str_rep` (`" ,"`, `","`, `" >"`, `"std::string"`) can overlap itself |
| Demangling.DemangleBlocksExact | pretty_index/pretty_index.hpp:143 | for all four `str_rep` calls of `demangle`, the block size as written is exactly the length of the result + 1 |
| DemanglingExamples.DinkumwareTags | pretty_index/pretty_index.hpp:188-192 | `class Foo,struct Bar` becomes `Foo, Bar` |
| DemanglingExamples.DinkumwareTemplate | pretty_index/pretty_index.hpp:188-192 | `class std::vector<int,class std::allocator<int> >` becomes `std::vector<int, std::allocator<int>>` |
| DemanglingExamples.LibCppBasicString | pretty_index/pretty_index.hpp:237-245 | `std::__1::basic_string<char>` becomes `std::basic_string<char>` |
| DemanglingExamples.LibCppRescan | pretty_index/pretty_index.hpp:243-245 | `std::__1::__tree<int, std::__1::less<int> >` loses `__1::`, `__tree<int, std::` and `__1::` in turn, because each round restarts from the start, and becomes `std::less<int>>` |
| DemanglingExamples.LibCppUnterminated | pretty_index/pretty_index.hpp:244 | `std::__1::__tree<int>` fails: after the first collapse, `std::__tree` has no `::` after it |
| DemanglingExamples.StringUnwrapped | pretty_index/pretty_index.hpp:261 | `std::string` becomes the literal on line 261 |
| DemanglingExamples.LibStdCppString | pretty_index/pretty_index.hpp:260-268 | libstdc++ `std::string` becomes `std::basic_std::string<char, std::char_traits<char>, std::allocator<char>>` |
| DemanglingExamples.GroupingSinglePass | pretty_index/pretty_index.hpp:268 | grouping is one left-to-right pass: `"  >"` becomes `" >"` |
| Murmur.Leftover | pretty_index/pretty_index.hpp:292-309 | fewer than 4 bytes follow the whole blocks, and the key is its blocks followed by them |
| Murmur.TailSwitch | pretty_index/pretty_index.hpp:311-316 | the fall-through `switch (len)` computes `Tail` |
| Murmur.TailPaddedWord | pretty_index/pretty_index.hpp:311-316 | the fall-through switch xors the 1 to 3 leftover bytes in as one little-endian word padded with zeros and then multiplies by `m`; with no leftover byte it leaves `h` alone |
| Murmur.TailWord | pretty_index/pretty_index.hpp:312-314 | xoring the three leftover bytes in lane by lane, third byte first, equals xoring in their little-endian word at once |
| Murmur.BlockLoop | pretty_index/pretty_index.hpp:292-309 | the `while (len >= 4)` loop computes the fold `Blocks` over the key and leaves exactly the bytes after its last whole block |
| Murmur.MurmurHashNeutral2 | pretty_index/pretty_index.hpp:284-323 | the function computes `Hash`: the seed xor the length, the blocks, the tail and the avalanche |
| Murmur.BlocksStep | pretty_index/pretty_index.hpp:295-308 | one iteration folds the block at the cursor in and moves on by 4 |
| Murmur.BlocksAppend | pretty_index/pretty_index.hpp:292-309 | the block loop is a left fold: the key's whole blocks are processed in order |
| Murmur.BlocksIgnoreTail | pretty_index/pretty_index.hpp:292 | the bytes after the last whole block do not enter the block loop |
| Murmur.WordLittleEndian | pretty_index/pretty_index.hpp:295-298 | a block is read little-endian whatever the machine: byte `j` of the word is the `j`-th byte |
| MurmurExamples.HashOfInt | pretty_index/pretty_index.hpp:284-323 | the 3 bytes of `int` with seed 0 hash to 0xda41e7a3 |
| MurmurExamples.HashOfDouble | pretty_index/pretty_index.hpp:284-323 | the 6 bytes of `double` with seed 0 hash to 0xcf4b26d5 |
| MurmurExamples.HashOfEmpty | pretty_index/pretty_index.hpp:288 | the empty key hashes to the avalanche of the seed |
| TypeKey.StrCmp | pretty_index/pretty_index.hpp:360 | `strcmp` is 0 exactly when the two names are the same string |
| TypeKey.StrCmpLess | pretty_index/pretty_index.hpp:368 | `strcmp` is negative exactly when the first name comes first in lexicographic byte order |
| TypeKey.StrCmpSwap | pretty_index/pretty_index.hpp:368 | swapping the arguments of `strcmp` negates it |
| TypeKey.LexTrichotomy | pretty_index/pretty_index.hpp:367-381 | exactly one of `a < b`, `a == b` and `b < a` holds in lexicographic order |
| TypeKey.LexTransitive | pretty_index/pretty_index.hpp:367-369 | lexicographic order is transitive |
| TypeKey.LexIrreflexive | pretty_index/pretty_index.hpp:367-369 | no name comes before itself |
| TypeKey.CastToInt | pretty_index/pretty_index.hpp:356 | `static_cast<int>(strlen)` lies in the 32-bit range, is congruent to the length mod 2^32, and is the length itself below 2^31 |
| TypeKey.Bytes | pretty_index/pretty_index.hpp:356 | the bytes hashed are one per character of the name |
| TypeKey.HashWithLen | pretty_index/pretty_index.hpp:284-323 | MurmurHashNeutral2 with a cast length: a length that is not negative hashes that many bytes; a negative one reads no byte and gives the hash of the empty key under the seed `len` |
| TypeKey.PrettyIndex.constructor | pretty_index/pretty_index.hpp:383-385 | the key holds the demangled C string it is built from |
| TypeKey.PrettyIndex.Name | pretty_index/pretty_index.hpp:351-353 | `name()` is the stored C string |
| TypeKey.PrettyIndex.HashCode | pretty_index/pretty_index.hpp:355-357 | `hash_code()` is a 32-bit value widened to `size_t` |
| TypeKey.PrettyIndex.Eq | pretty_index/pretty_index.hpp:359-361 | `==` holds exactly when the names are byte-equal |
| TypeKey.PrettyIndex.Ne | pretty_index/pretty_index.hpp:363-365 | `!=` holds exactly when the names differ |
| TypeKey.PrettyIndex.Lt | pretty_index/pretty_index.hpp:367-369 | `<` is lexicographic byte order on the names |
| TypeKey.PrettyIndex.Le | pretty_index/pretty_index.hpp:371-373 | `<=`, defined as `!(rhs < *this)`, is `<` or byte equality |
| TypeKey.PrettyIndex.Gt | pretty_index/pretty_index.hpp:375-377 | `>` is the reversed lexicographic order, and implies the names differ |
| TypeKey.PrettyIndex.Ge | pretty_index/pretty_index.hpp:379-381 | `>=`, defined as `!(*this < rhs)`, is `>` or byte equality |
| TypeKey.FromTypeName | pretty_index/pretty_index.hpp:383-389 | constructing a key stores exactly `Demangle`'s text, and fails exactly when `demangle` throws |
| TypeKey.Trichotomy | pretty_index/pretty_index.hpp:359-381 | exactly one of `a < b`, `a == b` and `a > b` holds |
| TypeKey.StrictOrder | pretty_index/pretty_index.hpp:367-369 | `<` is irreflexive and transitive, a strict weak order for `std::map` |
| TypeKey.DerivedOperators | pretty_index/pretty_index.hpp:371-381 | `<=` is `<` or `==`, `>=` is `<=` reversed, and `>` is `<` reversed |
| TypeKey.HashCoherent | pretty_index/pretty_index.hpp:355-361 | keys that compare `==` have the same `hash_code()` |
| TypeKey.HashCodeOfShortName | pretty_index/pretty_index.hpp:355-357 | a name shorter than 2^31 bytes is hashed whole, with seed 0 |
| TypeKey.HashCodeOfLongName | pretty_index/pretty_index.hpp:356 | a name of 2^31 to 2^32 - 1 bytes gets a negative `len`, so only its length enters the hash |
| TypeKey.HashCodeOfInt | pretty_index/pretty_index.hpp:355-357 | the key named `int` has hash code 0xda41e7a3 |

## Left out

- `abi::__cxa_demangle`, and freeing its result (lines 226-233 and 251-258), are outside the model. What it reports is the parameter `CxaOutcome`. A nonzero status is the failure `DemanglingFailed`.
- `std::type_info::name()` is a parameter: the text the standard library reports.
- The library detection and switch macros (lines 41-75 and 85-95) are outside the model. The library is the datatype `Vendor`. The switches form the record `Flags`, with `Defaults` all on. An unsupported library is a build error, not a case.
- Allocation failure is not modelled: `malloc` and `realloc` always succeed. The null checks that follow `realloc` in `str_rep` (line 148) and the `std::bad_cast` throws (lines 189-192, 261 and 268) never fire. `str_dup`'s unchecked null (line 188) and the ignored result of `str_shrink_to_fit` (line 246) are not modelled either.
- Buffers.StrRep: when the text shrinks, sizes the block with the corrected count of matches (`Buffers.MemNeeded`), not with the count of line 143. For a self-overlapping `original` the header's block is then too small (see "## Findings"). When the text grows it uses the count as written, which for such a pattern is larger than needed ("aaa" with "aa" replaced by "aaa" gets 6 cells for the 5 that "aaaa" needs).
- An empty pattern is excluded by `requires |p| > 0` (`Buffers.StrCut`, `Buffers.StrRep`, `CStrings.CutAll`, `CStrings.ReplaceAll`). The header does not guard against it: `strstr` finds an empty pattern at every position, so `str_cut` would never end (line 112), and `str_rep`'s size loop would step past the terminator (line 143). No call in the header passes one.
- Buffers.Realloc: always hands back a new block, so it does not capture in-place resizing or reuse of the old address. The old block is simply no longer used.
- Exceptions are failure results (`Err`), not control transfer.
- libc++ with a `std::__` and no `::` after it: the header passes a null pointer to `strlen` and `memmove` (line 244), which is undefined behaviour. The model returns `InlineNamespaceUnterminated` instead.
- The copy and move constructors and the destructor (lines 346-348 and 391-393) are outside the model. The defaults copy the raw pointer, so the key models no ownership, aliasing or double free.
- The `std::type_index` constructor (lines 387-389), the `std::hash` specialisation (lines 399-403) and the `prettyid` macro (lines 408-410) are outside the model. The `std::type_info` constructor is `TypeKey.FromTypeName`.
- The commented-out hand-optimised Dinkumware variant (lines 195-222) is dead code.
- TypeKey.PrettyIndex.Name: returns the stored text rather than a pointer to it, so pointer identity is not modelled.
- TypeKey.StrCmp: returns the difference of the first differing bytes, as common C libraries do. The C standard fixes only its sign, and only its sign is used.
- TypeKey.CastToInt: follows the modular conversion of C++20 and of common compilers. Before C++20, converting a length of 2^31 or more to `int` is implementation-defined.
- Murmur.MurmurHashNeutral2: takes `len` as the length of the key, so a non-negative `len` below 2^31 is all it covers. `hash_code` with a negative `len` is `TypeKey.HashWithLen`.
- `data[3] << 24` (line 298) shifts a promoted `int`. For a byte of 0x80 or more the result does not fit in `int`. Since C++14 that is still defined: the value, which fits in `unsigned int`, is converted to `int` in an implementation-defined way (C++20 fixes it as modular). Only C++11 as published leaves it undefined. The model reads it as the 32-bit shift that C++20 and common compilers perform.
- Characters are bytes 1 to 255, compared and hashed as `unsigned char`. No encoding is modelled.
- The quality of the hash (distribution, avalanche) is not stated, only its definition.
- Idempotence of the whole normalisation is not claimed. It does not hold: the libstdc++ expansion contains `std::string` again, a run of spaces before `>` loses only one space per pass, and the Dinkumware rule adds a space after every comma (line 192), so `Foo, Bar` becomes `Foo,  Bar` when normalised again.

## Findings

| source | as written | input that shows it | evidently intended | confidence | as-written member | corrected member |
|---|---|---|---|---|---|---|
| pretty_index/pretty_index.hpp:143 | the size loop restarts `strstr` one character after each match (`++it`), so it counts overlapping matches, while the rewrite loop resumes after the inserted text and replaces only non-overlapping ones | `str_rep("aaa", "aa", "a")`: `mem_needed` = 4 − 1 × 2 = 2, but the result `"aa"` needs 3 bytes, so the final `realloc` (line 172) truncates the block below its terminator | count the matches the rewrite performs (resume `original_len` characters on), so the block is exactly the result length + 1 | not executed | Buffers.MemNeededAsWritten, Buffers.AsWrittenBlockTooSmall | Buffers.MemNeeded |

The discrepancy needs a pattern that can overlap itself. None of the
patterns `demangle` passes to `str_rep` can. Because of that, the size as
written is exact for every call the header makes
(`Demangling.DemangleBlocksExact`).
