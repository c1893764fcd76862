# friends: the statement generator, in Dafny

The `friends` package turns a Japanese sentence of the form "X は Y が 得意"
("X is good at Y") into the compliment

    すごーい！{X}は{Y}が得意なフレンズなんだね！

It gets the sentence's dependency parse (chunks of morphemes, each chunk
naming the chunk it depends on) from a remote parse service. In that parse it
finds the first chunk that holds the noun 得意 (among chunks with a non-negative id). It reads the subject (a
dependent ending in は) and the specialty (a dependent ending in が or も) from
the chunks that depend on it. A first-person subject such as 僕 or 俺ら is
rewritten to きみ or きみたち. When the pattern is absent, the answer is the
empty string.

`friends.dfy` (module `Friends`) models this generator. It has three layers:

- **A specification on values.**
  - `AnchorScan` is the `specialtyID` sentinel search, with its -1 start value.
  - `DependentsOf` is the bucket of one head.
  - `Scan` / `RolesOf` is the role scan.
  - `FirstPerson` / `Address` is first-person normalisation.
  - `IsFirstPersonWord` is the word list.
  - `Generate` is the whole statement.
- **Lemmas.** They state what the generator promises about that specification.
- **The generator as the code runs it.**
  - `IndexChunks` is the loop that fills the head→chunks map and updates the sentinel.
  - `ExtractRoles` is the dependent loop that resets and re-accumulates each role.
  - `Say` ties these together and answers a parse failure with a wrapped error.
  - Each method is proved equal to the specification functions.

The parse service is not modelled. Its outcome (`Parsed(chunks)` or
`ParseFailed(cause)`) is an input to `Say`.

## Model

| member | source | states |
|---|---|---|
| Friends.IsFirstPersonWord | friends.go:13-76 | Membership in the first-person word list. It is a definition and states nothing further; `ListedPlurals` and the single-word lemmas are about it. |
| Friends.Stem | friends.go:170-175 | The stem is a prefix of the subject. It is one rune shorter exactly when the subject ends in 達, たち or ら, and otherwise it is the subject itself. A subject ending in たち leaves a stem ending in た. |
| Friends.HasPluralSuffix | friends.go:171 | Whether the subject ends in 達, たち or ら. It is a definition; `Stem` and `ListedPlurals` are about it. |
| Friends.Address | friends.go:158-160 | The subject as it appears in the statement: `FirstPerson`'s replacement when it reports a match, otherwise the subject unchanged. It is a definition; `FirstPersonEmpty`, `FirstPersonName`, `FirstPersonTachi` and `AddressBoku` are about it. |
| Friends.IsGoodAt | friends.go:110 | The token test: surface 得意 and part of speech 名詞. It is a definition; `IndexChunks` and `AnchorScanRange` are about it. |
| Friends.HasGoodAt | friends.go:109-113 | Whether some morpheme of a chunk passes that test, which is what the inner loop with its `break` decides. It is a definition; `IndexChunks` and `FirstGoodAtIsAnchor` are about it. |
| Friends.Surfaces | friends.go:142-151 | The concatenation of the morphemes' surfaces in order, as the `+=` loops build it. It is a definition; `ExtractRoles` is proved against it. |
| Friends.RolesOf | friends.go:122-153 | The roles after scanning the bucket of a head in input order. It is a definition; `RolesOfSnoc`, `IrrelevantChunk`, `LastWriterWins` and `UnfilledRoleEmpty` are about it. |
| Friends.FirstPerson | friends.go:165-187 | The normaliser, defined as the code computes it. Its properties are the lemmas `FirstPersonRange`, `FirstPersonEmpty`, `ListedWordAddressed`, `TachiKeepsTa` and `ListedPlurals`. |
| Friends.AnchorScan | friends.go:102-116 | The sentinel search, defined prefix by prefix as the loop updates it. It is a definition; `AnchorScanRange`, `AnchorScanFinds` and `AnchorFoundIff` are about it. |
| Friends.AnchorScanRange | friends.go:102-114 | The sentinel is either its start value -1 or the id of some chunk holding 得意/名詞. |
| Friends.DependentsOf | friends.go:104-106 | The bucket of a head: the in-order filter of the chunks naming that head. It is a definition; `DependentsOfFilter` and `IndexChunks` are about it. |
| Friends.RoleOf | friends.go:129-152 | Which role a chunk fills: none with fewer than two morphemes or without a final 助詞; the subject for は; the specialty for が or も. It is a definition. |
| Friends.Body | friends.go:141-151 | The concatenated surfaces of all morphemes but the final particle. It is a definition. |
| Friends.Apply | friends.go:139-152 | One step of the role scan: a chunk that fills a role overwrites it with its body. Its property is `ApplyGet`. |
| Friends.Scan | friends.go:127-153 | The role scan over the dependents, starting from two empty strings. Its properties are `LastWriterWins` and `UnfilledRoleEmpty`. |
| Friends.Compliment | friends.go:162 | The statement template. It is a definition. |
| Friends.Generate | friends.go:98-162 | The whole statement for a successful parse. It is a definition; `Say` is proved equal to it, and the Generate lemmas state its cases. |
| Friends.Say | friends.go:92-162 | A failed parse gives the error wrapped with the context "fail to parse the text: ". Otherwise the answer is `Generate` of the chunks (the empty string when the pattern is absent). |
| Friends.IndexChunks | friends.go:102-116 | After the single pass, the map has a key exactly for each head some chunk names. Each bucket holds that head's chunks in input order. The sentinel equals the prefix-by-prefix search `AnchorScan`. |
| Friends.ExtractRoles | friends.go:127-153 | The subject and specialty after the dependent loop are exactly the left-to-right role scan `Scan` of the dependents. |
| Friends.GenerateEmpty | friends.go:98-100 | A parse with no chunks yields the empty statement. |
| Friends.AnchorScanNone | friends.go:102-116 | If no chunk holds 得意/名詞 with a non-negative id, the sentinel stays negative. |
| Friends.AnchorScanFinds | friends.go:102-116 | The sentinel ends as the id of the first anchor in input order. Later chunks holding 得意 are ignored. |
| Friends.AnchorFoundIff | friends.go:102-120 | The sentinel ends non-negative if and only if some chunk is an anchor. |
| Friends.FirstGoodAtIsAnchor | friends.go:105-114 | When all ids are non-negative, the anchor is the first chunk holding the noun 得意. |
| Friends.GenerateWithoutAnchor | friends.go:118-120 | With no anchor, the statement is empty. |
| Friends.DependentsOfFilter | friends.go:104-106 | A bucket holds only input chunks with that head and is no longer than the input. It is empty exactly when no chunk names that head. |
| Friends.GenerateWithoutDependents | friends.go:122-125 | If nothing depends on the anchor, the statement is empty. |
| Friends.GenerateAt | friends.go:122-162 | With `chunks[i]` the first anchor, the statement is empty when the scanned specialty is empty. Otherwise it is the template around the normalised subject and the specialty. |
| Friends.IrrelevantChunk | friends.go:129-137 | Appending a chunk leaves both roles unchanged when the chunk does not depend on the anchor, has fewer than two morphemes, does not end in 助詞, or ends in a particle other than は, が and も. |
| Friends.RolesOfSnoc | friends.go:128-153 | One more chunk updates the roles of a head only if it depends on that head. |
| Friends.ApplyGet | friends.go:139-152 | One scan step changes a role exactly when the chunk fills that role, and sets it to the chunk's surfaces without the final particle. |
| Friends.LastWriterWins | friends.go:128-153 | The last dependent that fills a role decides its value: the concatenated surfaces of its morphemes, without the final particle. |
| Friends.UnfilledRoleEmpty | friends.go:127-153 | A role that no dependent fills stays the empty string. |
| Friends.GenerateWithoutSpecialty | friends.go:154-156 | If no dependent of the anchor ends in が or も, the statement is empty. |
| Friends.GenerateStatement | friends.go:154-162 | The statement is exactly すごーい！ + normalised subject + は + specialty + が得意なフレンズなんだね！. The subject comes from the last は-dependent and the specialty from the last が/も-dependent. |
| Friends.GenerateStatementNoSubject | friends.go:154-168 | With a specialty and no は-dependent, the subject is addressed as きみ. |
| Friends.GenerateExample | friends.go:98-162 | The parse of 僕は料理が得意です yields すごーい！きみは料理が得意なフレンズなんだね！. |
| Friends.AddressBoku | friends.go:158-160 | The subject 僕 is replaced by きみ in the statement. |
| Friends.KimiRyouriStatement | friends.go:162 | The template filled with きみ and 料理. |
| Friends.FirstPersonRange | friends.go:165-187 | A match yields きみ or きみたち, and きみたち only for a subject carrying a plural marker. No match yields the empty replacement. |
| Friends.FirstPersonEmpty | friends.go:166-168 | The empty subject gives ("きみ", true) and is addressed as きみ. |
| Friends.ListedWordAddressed | friends.go:170-186 | Every listed word without a plural marker gives ("きみ", true). The same word followed by 達 or by ら gives ("きみたち", true). |
| Friends.TachiKeepsTa | friends.go:170-186 | For every stem, a subject ending in たち matches exactly when the stem followed by た is listed, because only ち is stripped. A match is plural. |
| Friends.ListedPlurals | friends.go:13-76 | Among the listed words, exactly おいら and 俺ら are read as plurals (addressed as きみたち). |
| Friends.FirstPersonSingular | friends.go:170-186 | 僕 gives ("きみ", true). |
| Friends.FirstPersonPluralRa | friends.go:170-186 | 俺ら gives ("きみたち", true). |
| Friends.FirstPersonPluralTachi | friends.go:170-186 | 私達 gives ("きみたち", true). |
| Friends.FirstPersonName | friends.go:170-186 | 太郎 gives ("", false) and is kept as the subject. |
| Friends.FirstPersonTachi | friends.go:170-186 | Only ち of たち is dropped, so 僕たち gives ("", false) and is kept as it is. |
| Friends.FirstPersonOra | friends.go:13-76 | おら is in the word list, but its ら is stripped first, so it gives ("", false). |
| Friends.FirstPersonUra | friends.go:13-76 | Likewise うら. |
| Friends.FirstPersonOira | friends.go:13-76 | The listed おいら is read as the plural of the listed おい and gives ("きみたち", true). |

## Left out

- The parse client: `New` (friends.go:84-88) and `client.Parse` (friends.go:93).
  - They are network I/O through an external library, so the parse outcome is an input to `Say`.
  - The error is passed through with its context prefix. The Go error-wrapping chain (`%w`) is reduced to that message text.
- `context.Context`: it only cancels the network call.
- The morpheme accessors of the parse library.
  - `Surface()` and `PartOfSpeech()` become the fields of `Token`.
  - `ID` and `Head` become the fields of `Chunk`.
- Byte-level UTF-8.
  - Strings are sequences of runes.
  - Suffix tests and the one-rune strip work on runes, as the `[]rune` conversion in friends.go:172-173 does.
- `FirstPersons` is modelled as a membership test, `IsFirstPersonWord`, rather than a slice.
  - friends.go:177-184 only searches it for an equal entry and stops at the first one.
  - Order and the duplicate あたし therefore do not affect the answer.
- cmd/friends/main.go is not part of this model. It holds command-line flag handling, output and the exit status.
- Plural handling: a reader might expect 僕たち to become きみたち. The code strips one rune, so 僕たち becomes 僕た, which is not listed. The model follows the code (`FirstPersonTachi`, `TachiKeepsTa`).
