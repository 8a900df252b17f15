# keytool export — a Dafny model

This project models the command-line tool `Main` of the `keytool` export
utility. The tool adds two operations to the JDK `keytool`'s vocabulary:
`-exportpubkey` writes the public key of a certificate in a key store, and
`-exportprivkey` writes a private key. Each can write raw bytes or PEM armour
(`-rfc`). The model follows one run from start to finish:

- **Command resolution** (`ok`). Arguments are scanned case-insensitively
  against the 17 keytool operation names, and the last match wins. A run
  that did not select an export gives up with exit code 255.
- **Option parsing** (`parse`). There is one pass over the arguments, with
  its two errors, "Illegal option" and "needs an argument", both exit 1.
- **The unlock pipeline** (`handle`):
  - `-help`;
  - defaults for the store path, store type, alias and entry password;
  - the store-file and store-type checks;
  - the store password, in one of three ways: as given, one prompt for the
    public-key export, or up to three prompts for a password of at least six
    UTF-16 code units otherwise;
  - loading the store, where the empty password counts as no password;
  - the warning about an empty password;
  - the alias check;
  - recovering the key, on the private path with a silent three-prompt
    retry and exactly one more unlock attempt;
  - writing the key.
- **PEM output**. The base 64 text is wrapped at 76 columns: a line break is
  written before index `i` exactly when `i > 0`, `i % 76 == 0` and
  `i < length - 1`. The label is `PUBLIC` or `PRIVATE`.

## Layout

- `wrappers.dfy`: `Option`.
- `text.dfy`: ASCII case folding, the model's form of `toLowerCase` and `equalsIgnoreCase`.
- `commands.dfy`: the command list and the "last match wins" scan.
- `parser.dfy`: the option record and the parse loop as a function, with its laws.
- `base64.dfy`: base 64 encoding as section 4 of RFC 4648 defines it. The tool calls a library encoder for this.
- `pem.dfy`: the armour, the character loop that writes it, and the body's lines.
- `unlock.dfy`:
  - the store and the environment as oracles;
  - the standard-error trace;
  - the password retry loop;
  - the pipeline as a function, with its properties.
- `keytool.dfy`:
  - the class `Keytool`, with the source's fields (`command`, `help`, `rfc`,
    `keystore`, `storetype`, `storepass`, `alias`, `keypass`, `file`);
  - the methods that update those fields step by step, each proved equal to
    the specification functions above;
  - `Execute`, the entry point without the process exit;
  - lemmas about whole runs.

The outside world is a parameter:

- The file system is the set of existing paths.
- The JCE provider is the set of known store types and a `load` function.
  `load` returns a loaded store, a failure caused by an unrecoverable key, or
  any other I/O failure.
- A loaded store is its aliases, the certificate key at an alias, and a
  `getKey` function. `getKey` gives none when the password does not recover
  the key.
- The properties `user.home`, `file.separator` and `keystore.type` are fields
  of the environment.
- What the operator types is a sequence of lines, consumed in order.
- What the tool writes to standard error is a sequence of `Message` values.

A run ends with an exit code, or with one of two exceptions the tool does not
catch:

- the input runs out while the tool is prompting;
- the store fails to load for a reason other than an unrecoverable key.

A trailing `-alias` or `-file` with no value after it is not ignored: the
guards on those branches (`&& i.hasNext()` for `-alias`, `& i.hasNext()` for
`-file`) fail, and the token falls through
to the "Illegal option" branch (`Parser.TrailingFlagRejected`).

## Model

| member | source | states |
|---|---|---|
| Text.Lower | src/main/java/com/github/kohanyirobert/keytool/Main.java:71 | lower-casing keeps the length and leaves no capital letter; it changes a character exactly when that character is an ASCII capital, and moves each capital to its small letter |
| Text.EqualsIgnoreCaseIffLowerEqual | src/main/java/com/github/kohanyirobert/keytool/Main.java:230-258 | two strings are equal ignoring case exactly when their lower-cased forms are equal |
| Text.MatchLowerCaseName | src/main/java/com/github/kohanyirobert/keytool/Main.java:54-71 | for an all-lower-case name, `equalsIgnoreCase` with an argument holds exactly when the lower-cased argument is the name, so the list lookup in `ok` and the comparisons elsewhere agree |
| Text.Utf16Length | src/main/java/com/github/kohanyirobert/keytool/Main.java:132 | `length()` counts UTF-16 code units: at least one and at most two per character |
| Text.Utf16LengthWithoutSurrogates | src/main/java/com/github/kohanyirobert/keytool/Main.java:132 | for text without supplementary characters, `length()` is the number of characters |
| Commands.LastOneOfIsLastMatch | src/main/java/com/github/kohanyirobert/keytool/Main.java:52-72 | the scan ends with the last argument whose lower-cased form is in the list; it ends with none exactly when no argument is in the list |
| Commands.ExportsAreExclusive | src/main/java/com/github/kohanyirobert/keytool/Main.java:290-296 | `exportpubkey()` and `exportprivkey()` never hold together |
| Commands.ExportNamesAreCommands | src/main/java/com/github/kohanyirobert/keytool/Main.java:54-71 | both export names are operation names, so an argument spelling either one can be selected |
| Commands.ProceedsIffLastIsExport | src/main/java/com/github/kohanyirobert/keytool/Main.java:48-75 | the run goes on to `handle` exactly when the last argument naming an operation is `-exportpubkey` or `-exportprivkey`, ignoring case |
| Parser.MatchesFlag | src/main/java/com/github/kohanyirobert/keytool/Main.java:230-258 | each of the ten recognised tokens matches an argument exactly when the lower-cased argument is that token |
| Parser.OptionNamesAreDistinct | src/main/java/com/github/kohanyirobert/keytool/Main.java:230-258 | the ten names the parse loop compares against are pairwise different, so with `Parser.MatchesFlag` a token matches at most one of them |
| Parser.ParseShift | src/main/java/com/github/kohanyirobert/keytool/Main.java:224-272 | parsing from a position inside a suffix does not depend on the tokens before it |
| Parser.ParseAppend | src/main/java/com/github/kohanyirobert/keytool/Main.java:224-272 | once a prefix is accepted, the rest is parsed from the fields that prefix left behind |
| Parser.ValueFlagTakesNextToken | src/main/java/com/github/kohanyirobert/keytool/Main.java:242-258 | a value flag after an accepted prefix takes the next token, whatever it is, and overwrites an earlier value of its field; `-keypass` does so only under `-exportprivkey` and is otherwise an illegal option |
| Parser.TrailingFlagRejected | src/main/java/com/github/kohanyirobert/keytool/Main.java:242-268 | as the last token, `-keystore`, `-storetype` and `-storepass` need an argument, while `-alias`, `-file` and `-keypass` are illegal options |
| Parser.KeypassOnlyForPrivateExport | src/main/java/com/github/kohanyirobert/keytool/Main.java:254-262 | `-keypass` under any command but `-exportprivkey` stops the parse as an illegal option, whatever follows it |
| Parser.UnknownTokenRejected | src/main/java/com/github/kohanyirobert/keytool/Main.java:260-262 | a token that is not one of the recognised names stops the parse as an illegal option, whatever follows it |
| Parser.SelectorIsSkipped | src/main/java/com/github/kohanyirobert/keytool/Main.java:230-234 | an export selector anywhere in the arguments is accepted and changes nothing |
| Base64.Encode | src/main/java/com/github/kohanyirobert/keytool/Main.java:204 | the encoding is four characters per started group of three bytes, and each is an alphabet letter or the pad |
| Base64.EncodingHasNoLineBreak | src/main/java/com/github/kohanyirobert/keytool/Main.java:204 | an encoding contains no line break |
| Pem.WriteArmoured | src/main/java/com/github/kohanyirobert/keytool/Main.java:207-214 | the output loop writes the BEGIN line, the body with a break before exactly the indices `i > 0`, `i % 76 == 0`, `i < length - 1`, and the END line |
| Pem.Lines | src/main/java/com/github/kohanyirobert/keytool/Main.java:209-213 | the body's lines together are the body; every line but the last has 76 characters; the last has at most 77, and at least one when the body is non-empty; a last line that follows a break has at least two characters, as no break goes before the final character |
| Pem.WrapIsJoinedLines | src/main/java/com/github/kohanyirobert/keytool/Main.java:209-213 | what the loop writes between the armour lines is the body's lines joined by line breaks |
| Pem.LinesFitWidth | src/main/java/com/github/kohanyirobert/keytool/Main.java:209-213 | when the body's length is a multiple of four, every line has at most 76 characters |
| Pem.ShortBodyIsOneLine | src/main/java/com/github/kohanyirobert/keytool/Main.java:209-213 | a body of at most 77 characters is written unchanged on one line |
| Pem.StripWrap | src/main/java/com/github/kohanyirobert/keytool/Main.java:209-213 | deleting the line breaks from the written body gives back the base 64 text |
| Pem.LabelIsPublicIffPublicExport | src/main/java/com/github/kohanyirobert/keytool/Main.java:208 | the armour says PUBLIC exactly for the public-key export, and PRIVATE otherwise |
| Unlock.Collect | src/main/java/com/github/kohanyirobert/keytool/Main.java:126-143 | a retry loop reads at most `tries` lines and never past the input |
| Unlock.CollectOutcome | src/main/java/com/github/kohanyirobert/keytool/Main.java:126-143 | a retry loop ends in one of three ways: accepted on its last line read, which is at least six UTF-16 code units long; given up after exactly `tries` lines; or out of input; every other line it read was too short |
| Unlock.TooShortCountsCodeUnits | src/main/java/com/github/kohanyirobert/keytool/Main.java:132-140 | the length test counts code units: for text of the Basic Multilingual Plane it means fewer than six characters, six characters are never too short, and three supplementary characters already pass |
| Unlock.SupplementaryPasswordAccepted | src/main/java/com/github/kohanyirobert/keytool/Main.java:126-137 | three emoji typed at the first private-path prompt are accepted at once, with one prompt and no "too short" message |
| Unlock.CollectTrace | src/main/java/com/github/kohanyirobert/keytool/Main.java:126-135 | a retry loop prints, for each rejected line, its prompt and (only when explaining) "too short", then one last prompt unless every prompt was rejected |
| Unlock.CollectEnds | src/main/java/com/github/kohanyirobert/keytool/Main.java:126-143 | after `n` short lines, a loop that meets a missing line, a long-enough line or its last prompt has printed `n` rejections, then one more prompt unless the prompts ran out, and ends there out of input, accepted, or given up |
| Unlock.CollectPromptCount | src/main/java/com/github/kohanyirobert/keytool/Main.java:126-137 | a retry loop prints its prompt at most `tries` times |
| Unlock.Defaults | src/main/java/com/github/kohanyirobert/keytool/Main.java:85-97 | after defaults, the store path is the given one or `user.home` + `file.separator` + `.keystore`, the store type the given one or `keystore.type`, the alias the given one or `mykey`; the entry password is the given one, else the store password; nothing else changes |
| Unlock.StorePassword | src/main/java/com/github/kohanyirobert/keytool/Main.java:117-145 | a given password is accepted as it is, with nothing printed or read; the public-key export prints one prompt and accepts the first line whatever it is (out of input when there is none); a private-path password that is accepted is at least six UTF-16 code units long |
| Unlock.HelpTouchesNothing | src/main/java/com/github/kohanyirobert/keytool/Main.java:80-82 | `-help` prints the help and ends with 0, with no checks, prompts or output |
| Unlock.FailFastOrder | src/main/java/com/github/kohanyirobert/keytool/Main.java:99-115 | a missing store file ends with 1 before any prompt, then an unknown store type does; output means the run passed every check |
| Unlock.KeyRetrievalMessages | src/main/java/com/github/kohanyirobert/keytool/Main.java:168-200 | key retrieval prints only entry-password prompts and its two failure messages, and prints and reads nothing for the public-key export |
| Unlock.OpenAndExportMessages | src/main/java/com/github/kohanyirobert/keytool/Main.java:147-200 | after the store password, no store-password message is printed; the warning is printed exactly for the empty password when the store loads; the public path reads nothing more |
| Unlock.GivenStorePasswordNotPrompted | src/main/java/com/github/kohanyirobert/keytool/Main.java:117-118 | a store password given on the command line is never prompted for |
| Unlock.PublicExportNeverAsksEntryPassword | src/main/java/com/github/kohanyirobert/keytool/Main.java:117-123 | the public-key export never prompts for an entry password, and reads at most one line (none when the store password is given) |
| Unlock.WarningOnlyForEmptyStorePassword | src/main/java/com/github/kohanyirobert/keytool/Main.java:147-158 | the warning is printed exactly when the run reaches the store, the password is the empty string (given, or typed at the single public prompt), and the store loads without a password |
| Unlock.PrivateStorePasswordPromptsAtMostThrice | src/main/java/com/github/kohanyirobert/keytool/Main.java:125-137 | on the private path the store-password prompt is printed at most three times |
| Unlock.PrivateStorePasswordGivesUp | src/main/java/com/github/kohanyirobert/keytool/Main.java:125-143 | three short answers give exactly three prompt-and-"too short" pairs, then "too many failures", exit 1, and three lines read |
| Unlock.AliasMissingExits | src/main/java/com/github/kohanyirobert/keytool/Main.java:160-166 | a loaded store without the alias ends with 1 and "does not exist" as the last message, with no output |
| Unlock.PrivateKeyRetry | src/main/java/com/github/kohanyirobert/keytool/Main.java:174-199 | after a failed unlock, at most three lines are read and no "too short" is printed; a key comes from the one retry with the accepted line; exit 1 follows three short lines or a failed retry |
| Unlock.WrongEntryPasswordThenOneRetry | src/main/java/com/github/kohanyirobert/keytool/Main.java:174-199 | a wrong entry password and then a long-enough line give one prompt, then the key that line unlocks or "cannot recover key" with 1 |
| Unlock.PipelineExitCodes | src/main/java/com/github/kohanyirobert/keytool/Main.java:77-222 | after a successful parse the exit code is 0 or 1, and 0 means help or output written |
| Unlock.OutputFraming | src/main/java/com/github/kohanyirobert/keytool/Main.java:203-217 | raw output is the key's bytes; PEM output is the BEGIN line, the encoding's lines joined by breaks, and the END line; deleting the breaks gives the encoding back; the label is PUBLIC exactly for the public-key export |
| Unlock.EncodedLinesFitWidth | src/main/java/com/github/kohanyirobert/keytool/Main.java:204-213 | every PEM body line the tool writes for a key holds at most 76 characters |
| Unlock.ShortKeyIsOneLine | src/main/java/com/github/kohanyirobert/keytool/Main.java:204-213 | a 32-byte key encodes to 44 characters and is written on one line |
| Tool.CollectPassword | src/main/java/com/github/kohanyirobert/keytool/Main.java:126-143 | the counted loop with its `continue` and `break` prints, accepts and reads exactly what the retry collection `Collect` specifies |
| Tool.Keytool.constructor | src/main/java/com/github/kohanyirobert/keytool/Main.java:40-46 | a new tool holds the arguments, no command and no option set |
| Tool.Keytool.Ok | src/main/java/com/github/kohanyirobert/keytool/Main.java:52-75 | the loop leaves `command` as the last operation name among the arguments (unchanged when there is none) and answers whether it is an export |
| Tool.Keytool.Parse | src/main/java/com/github/kohanyirobert/keytool/Main.java:224-272 | the iterator loop leaves the option fields and the status exactly as the parse function gives them |
| Tool.Keytool.ApplyDefaults | src/main/java/com/github/kohanyirobert/keytool/Main.java:85-97 | the field assignments leave the option fields as `Defaults` gives them |
| Tool.Keytool.ObtainStorePassword | src/main/java/com/github/kohanyirobert/keytool/Main.java:117-145 | the store password comes out as `StorePassword` specifies, and the field holds the accepted password |
| Tool.Keytool.RecoverKey | src/main/java/com/github/kohanyirobert/keytool/Main.java:168-200 | getting the key, with its retry loop, ends as `RetrieveKey` specifies |
| Tool.Keytool.Write | src/main/java/com/github/kohanyirobert/keytool/Main.java:203-217 | the output written is the raw key or its PEM armour, as `Encoding` specifies |
| Tool.Keytool.Export | src/main/java/com/github/kohanyirobert/keytool/Main.java:147-217 | loading, the warning, the alias check, key recovery and writing end as `OpenAndExport` specifies |
| Tool.Keytool.Proceed | src/main/java/com/github/kohanyirobert/keytool/Main.java:80-145 | after a successful parse, help, defaults, the checks, the store password and the export end as `Pipeline` specifies; with `-help` no field changes; otherwise the store path, store type and alias are left at their defaulted values |
| Tool.Keytool.Handle | src/main/java/com/github/kohanyirobert/keytool/Main.java:77-222 | `handle` ends with a parse error (exit 1, its message, nothing read) or as the pipeline specifies for the parsed options |
| Tool.Keytool.Run | src/main/java/com/github/kohanyirobert/keytool/Main.java:48-50 | on a fresh tool, `ok` then `handle` or 255 gives the run's specified outcome, and the command left is the last operation named in the arguments |
| Tool.Execute | src/main/java/com/github/kohanyirobert/keytool/Main.java:23-25 | constructing the tool from the arguments and running it gives the specified outcome |
| Tool.GiveUpIffNoExport | src/main/java/com/github/kohanyirobert/keytool/Main.java:48-50 | a run ends with 255 exactly when no export was selected, and then prints, reads and writes nothing |
| Tool.RunExitCodes | src/main/java/com/github/kohanyirobert/keytool/Main.java:48-50 | a run ends with 0, 1 or 255 unless an exception escapes; output is written only with 0 after selecting an export |
| Tool.PublicExportRun | src/main/java/com/github/kohanyirobert/keytool/Main.java:117-123 | a run of the public-key export never prompts for an entry password and reads at most one line |

## Left out

- Console and file I/O:
  - Typed answers are lines given in advance, one line per prompt. That holds
    for input from a console or terminal. Without a console, each prompt makes
    a fresh `Scanner` over standard input, and a `Scanner` reads ahead; with
    piped input the first one can take every remaining line, so a later
    prompt meets the end of input. This qualifies `Unlock.PrivateStorePasswordGivesUp`
    and `Unlock.PrivateKeyRetry`, which assume each prompt reads the next line.
  - Whether the console echoes is not modelled.
  - Running out of lines is an uncaught-exception outcome.
- The text of the help and warning resources (`help()`, `warning()`): the
  trace records that they were printed, not what they say.
- `System.exit`: `Execute` returns the outcome instead.
- Locale-sensitive case folding: only ASCII letters are folded.
- Null values and other unchecked exception paths. This covers:
  - a null default store type;
  - a missing help resource;
  - a certificate without a public key;
  - `getCertificate` returning null for an alias that has no certificate;
  - `getKey` returning null for an entry that is not a key, which then fails
    at `getEncoded`;
  - an exception other than `UnrecoverableKeyException` from `getKey`;
  - a `PrintStream` that cannot be opened.
- `KeyStore.getInstance` is modelled as membership in the set of known store
  types; what the provider does beyond that is not part of this model.
- The platform line separator written by `%n` is taken to be `\n`.
- The key store provider and the file system are oracles in the environment;
  their own behaviour is not part of this model.
- Decoding base 64 is not part of this model. The tool only encodes, so the
  PEM round trip is stated as deleting line breaks (`Pem.StripWrap`).
- Tool.Keytool.Handle: its contract states the outcome of the run, not the
  option fields it leaves behind. The process exits right after, so those
  fields are never observed.
- Tool.Keytool.RecoverKey: the source assigns each short retry line to
  `keypass`; the model sets the field only to the accepted line. The
  difference is never read.
- Tool.Keytool.Proceed: its contract states the store path, store type and
  alias it leaves, but not the store and entry passwords: the source writes
  each short typed line into those fields, and neither is read once the run
  ends.
- Tool.Keytool.Export: its contract does not state the `keypass` value it
  leaves, for the reason given for `Tool.Keytool.RecoverKey`.
- Tool.Keytool.Run: its contract states the command it leaves, not the option
  fields; as for `Tool.Keytool.Handle`, the process exits right after.
- Tool.Keytool.ObtainStorePassword: in the same way, the source assigns each
  short line to `storepass`; the model sets the field only when a password is
  accepted.
