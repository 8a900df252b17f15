/**
 * The unlock pipeline that runs once the options are parsed: defaults, the
 * store file and type checks, the store password, loading the store, the
 * alias check, unlocking the key (with bounded re-prompting on the private
 * path) and encoding the result. The key store, the file system and the
 * console are oracles: the store is seen through the calls made on it, and
 * the operator's typed answers are a sequence of lines consumed in order.
 */
module Unlock {
  import opened Wrappers
  import opened Parser
  import Text
  import Base64
  import Pem

  type Bytes = seq<Base64.Byte>

  /**
   * A loaded key store as the tool uses it: the aliases it contains, the
   * encoded public key of the certificate at an alias, and the encoded key
   * unlocked by an alias and password (None when the password does not
   * recover it).
   */
  datatype Store = Store(
    aliases: set<string>,
    certificateKey: string -> Bytes,
    getKey: (string, string) -> Option<Bytes>)

  /**
   * Loading a store file of a type with a password (absent for none): the
   * store, a failure caused by an unrecoverable key (a wrong password), or
   * any other I/O failure, which the tool does not handle.
   */
  datatype LoadResult = Loaded(store: Store) | Unrecoverable | LoadFailed

  /** Everything outside the tool that the pipeline consults. */
  datatype Environment = Environment(
    userHome: string,
    fileSeparator: string,
    defaultStoretype: string,
    files: set<string>,
    storetypes: set<string>,
    load: (string, string, Option<string>) -> LoadResult)

  function DefaultKeystore(env: Environment): string {
    env.userHome + env.fileSeparator + ".keystore"
  }

  const DefaultAlias: string := "mykey"

  /** The shortest password accepted from an interactive retry. */
  const MinPasswordLength: nat := 6

  /** A password shorter than the minimum, measured as `String.length()` measures it. */
  predicate TooShort(password: string) {
    Text.Utf16Length(password) < MinPasswordLength
  }

  /**
   * For text of the Basic Multilingual Plane, too short means fewer than six
   * characters; three characters beyond it already make six code units.
   */
  lemma TooShortCountsCodeUnits(password: string)
    ensures (forall i :: 0 <= i < |password| ==> !Text.IsSupplementary(password[i])) ==>
              (TooShort(password) <==> |password| < MinPasswordLength)
    ensures |password| >= MinPasswordLength ==> !TooShort(password)
    ensures |password| == 3 && (forall i :: 0 <= i < 3 ==> Text.IsSupplementary(password[i])) ==>
              !TooShort(password)
  {
    if forall i :: 0 <= i < |password| ==> !Text.IsSupplementary(password[i]) {
      Text.Utf16LengthWithoutSurrogates(password);
    }
    if |password| == 3 && (forall i :: 0 <= i < 3 ==> Text.IsSupplementary(password[i])) {
      var rest1, rest2 := password[1..], password[2..];
      assert rest1[0] == password[1] && rest1[1..] == rest2 && rest2[0] == password[2];
      assert Text.Utf16Length(rest2) == 2 + Text.Utf16Length(rest2[1..]);
      assert Text.Utf16Length(rest1) == 2 + Text.Utf16Length(rest2);
      assert Text.Utf16Length(password) == 2 + Text.Utf16Length(rest1);
    }
  }

  /** The number of prompts a retry loop may issue. */
  const Attempts: nat := 3

  /** What the tool writes to standard error, in order. */
  datatype Message =
    | HelpText
    | IllegalOptionText(option: string)
    | NeedsArgumentText(option: string)
    | KeystoreMissing(path: string)
    | UnknownStoretype(storetype: string)
    | StorePasswordPrompt
    | PasswordTooShort
    | StoreTooManyFailures
    | StoreUnrecoverable
    | NoProtectionWarning
    | AliasMissing(alias: string)
    | KeyPasswordPrompt(alias: string)
    | KeyTooManyFailures
    | CannotRecoverKey

  /** How a password collection ended. */
  datatype Candidate = Accepted(password: string) | AllTooShort | NoMoreInput

  /** The messages a collection printed, how it ended, and the next unread line. */
  datatype Collection = Collection(messages: seq<Message>, candidate: Candidate, next: nat)

  /**
   * A retry loop of `tries` prompts reading from line `pos` on: it stops at
   * the first line of at least six characters; each shorter line is rejected,
   * with a "too short" message when `explain` holds; running out of lines
   * ends the collection.
   */
  function Collect(input: seq<string>, pos: nat, tries: nat, prompt: Message, explain: bool): (c: Collection)
    requires pos <= |input| && prompt != PasswordTooShort
    ensures pos <= c.next <= |input| && c.next <= pos + tries
    decreases tries
  {
    if tries == 0 then Collection([], AllTooShort, pos)
    else if pos == |input| then Collection([prompt], NoMoreInput, pos)
    else if !TooShort(input[pos]) then Collection([prompt], Accepted(input[pos]), pos + 1)
    else
      var rest := Collect(input, pos + 1, tries - 1, prompt, explain);
      Collection(Rejected(prompt, explain) + rest.messages, rest.candidate, rest.next)
  }

  /**
   * How a collection ends: accepted on its last line read, which has at least
   * six characters; given up after exactly `tries` lines; or out of lines
   * before its prompts ran out. Every other line it read was too short.
   */
  lemma {:induction false} CollectOutcome(input: seq<string>, pos: nat, tries: nat, prompt: Message, explain: bool)
    requires pos <= |input| && prompt != PasswordTooShort
    ensures var c := Collect(input, pos, tries, prompt, explain);
            (c.candidate.Accepted? ==>
               pos < c.next && c.candidate.password == input[c.next - 1] &&
               !TooShort(c.candidate.password)) &&
            (c.candidate.AllTooShort? ==> c.next == pos + tries) &&
            (c.candidate.NoMoreInput? ==> c.next == |input| < pos + tries) &&
            (forall j :: pos <= j < c.next && !(c.candidate.Accepted? && j == c.next - 1) ==>
               TooShort(input[j]))
    decreases tries
  {
    if tries > 0 && pos < |input| && TooShort(input[pos]) {
      CollectOutcome(input, pos + 1, tries - 1, prompt, explain);
    }
  }

  /** What one rejected line prints: its prompt, then "too short" when explaining. */
  function Rejected(prompt: Message, explain: bool): seq<Message> {
    if explain then [prompt, PasswordTooShort] else [prompt]
  }

  /** What `n` rejected lines print. */
  function Rejections(n: nat, prompt: Message, explain: bool): seq<Message> {
    if n == 0 then [] else Rejected(prompt, explain) + Rejections(n - 1, prompt, explain)
  }

  /** The number of lines a collection read and rejected as too short. */
  function Shorts(c: Collection, pos: nat): int {
    c.next - pos - (if c.candidate.Accepted? then 1 else 0)
  }

  /**
   * A collection prints, for each rejected line, its prompt followed by
   * "too short" only when it explains; then one last prompt, unless all its
   * prompts were rejected. Nothing else.
   */
  lemma {:induction false} CollectTrace(input: seq<string>, pos: nat, tries: nat, prompt: Message, explain: bool)
    requires pos <= |input| && prompt != PasswordTooShort
    ensures var c := Collect(input, pos, tries, prompt, explain);
            Shorts(c, pos) >= 0 &&
            c.messages == Rejections(Shorts(c, pos), prompt, explain) +
                          (if c.candidate.AllTooShort? then [] else [prompt])
    decreases tries
  {
    if tries > 0 && pos < |input| && TooShort(input[pos]) {
      CollectTrace(input, pos + 1, tries - 1, prompt, explain);
      RejectionsStep(input, pos, tries, prompt, explain);
    } else {
      assert Rejections(0, prompt, explain) == [];
    }
  }

  lemma RejectionsStep(input: seq<string>, pos: nat, tries: nat, prompt: Message, explain: bool)
    requires pos < |input| && prompt != PasswordTooShort
    requires tries > 0 && TooShort(input[pos])
    requires var rest := Collect(input, pos + 1, tries - 1, prompt, explain);
             Shorts(rest, pos + 1) >= 0 &&
             rest.messages == Rejections(Shorts(rest, pos + 1), prompt, explain) +
                              (if rest.candidate.AllTooShort? then [] else [prompt])
    ensures var c := Collect(input, pos, tries, prompt, explain);
            Shorts(c, pos) >= 0 &&
            c.messages == Rejections(Shorts(c, pos), prompt, explain) +
                          (if c.candidate.AllTooShort? then [] else [prompt])
  {
    var rest := Collect(input, pos + 1, tries - 1, prompt, explain);
    var n := Shorts(rest, pos + 1);
    var tail := if rest.candidate.AllTooShort? then [] else [prompt];
    assert Rejections(n + 1, prompt, explain) == Rejected(prompt, explain) + Rejections(n, prompt, explain);
    assert Rejected(prompt, explain) + (Rejections(n, prompt, explain) + tail)
        == (Rejected(prompt, explain) + Rejections(n, prompt, explain)) + tail;
  }

  /** A collection that continues after the messages already printed. */
  function Resume(printed: seq<Message>, rest: Collection): Collection {
    Collection(printed + rest.messages, rest.candidate, rest.next)
  }

  /** One short line read: its rejection joins the printed messages and the collection goes on. */
  lemma CollectRejects(input: seq<string>, pos: nat, tries: nat, prompt: Message, explain: bool, printed: seq<Message>)
    requires pos < |input| && tries > 0 && prompt != PasswordTooShort && TooShort(input[pos])
    ensures Resume(printed, Collect(input, pos, tries, prompt, explain)) ==
            Resume(printed + Rejected(prompt, explain), Collect(input, pos + 1, tries - 1, prompt, explain))
  {
    var rest := Collect(input, pos + 1, tries - 1, prompt, explain);
    assert printed + (Rejected(prompt, explain) + rest.messages) == (printed + Rejected(prompt, explain)) + rest.messages;
  }

  /** `n` short lines read: their rejections are printed and the collection goes on after them. */
  lemma {:induction false} CollectSkipsShorts(input: seq<string>, pos: nat, n: nat, tries: nat, prompt: Message, explain: bool,
                                              printed: seq<Message>)
    requires pos + n <= |input| && n <= tries && prompt != PasswordTooShort
    requires forall j :: pos <= j < pos + n ==> TooShort(input[j])
    ensures Resume(printed, Collect(input, pos, tries, prompt, explain)) ==
            Resume(printed + Rejections(n, prompt, explain), Collect(input, pos + n, tries - n, prompt, explain))
    decreases n
  {
    if n == 0 {
      assert printed + Rejections(0, prompt, explain) == printed;
    } else {
      CollectRejects(input, pos, tries, prompt, explain, printed);
      CollectSkipsShorts(input, pos + 1, n - 1, tries - 1, prompt, explain, printed + Rejected(prompt, explain));
      RejectionsJoin(printed, n, prompt, explain);
    }
  }

  lemma RejectionsJoin(printed: seq<Message>, n: nat, prompt: Message, explain: bool)
    requires n > 0
    ensures printed + Rejected(prompt, explain) + Rejections(n - 1, prompt, explain) ==
            printed + Rejections(n, prompt, explain)
  {
  }

  /** The line at `pos` is missing or long enough: the collection prints one prompt and stops there. */
  lemma CollectStops(input: seq<string>, pos: nat, tries: nat, prompt: Message, explain: bool)
    requires pos <= |input| && tries > 0 && prompt != PasswordTooShort
    requires pos == |input| || !TooShort(input[pos])
    ensures Collect(input, pos, tries, prompt, explain) ==
            if pos == |input| then Collection([prompt], NoMoreInput, pos)
            else Collection([prompt], Accepted(input[pos]), pos + 1)
  {
  }

  /**
   * A collection that meets a missing or long-enough line, or runs out of
   * prompts, after `n` short lines: it has printed their `n` rejections, then
   * one more prompt unless its prompts ran out, and it stops there.
   */
  lemma CollectEnds(input: seq<string>, pos: nat, n: nat, tries: nat, prompt: Message, explain: bool)
    requires pos + n <= |input| && n <= tries && prompt != PasswordTooShort
    requires forall j :: pos <= j < pos + n ==> TooShort(input[j])
    requires n == tries || pos + n == |input| || !TooShort(input[pos + n])
    ensures Collect(input, pos, tries, prompt, explain) ==
            if n == tries then Collection(Rejections(n, prompt, explain), AllTooShort, pos + n)
            else if pos + n == |input| then Collection(Rejections(n, prompt, explain) + [prompt], NoMoreInput, pos + n)
            else Collection(Rejections(n, prompt, explain) + [prompt], Accepted(input[pos + n]), pos + n + 1)
  {
    CollectSkipsShorts(input, pos, n, tries, prompt, explain, []);
    assert [] + Rejections(n, prompt, explain) == Rejections(n, prompt, explain);
    var whole := Collect(input, pos, tries, prompt, explain);
    assert Resume([], whole) == whole;
    if n < tries {
      CollectStops(input, pos + n, tries - n, prompt, explain);
    }
  }

  /** One more rejection printed after `n` of them makes `n + 1`. */
  lemma {:induction false} RejectionsAppend(n: nat, prompt: Message, explain: bool)
    ensures Rejections(n, prompt, explain) + Rejected(prompt, explain) == Rejections(n + 1, prompt, explain)
  {
    if n > 0 {
      RejectionsAppend(n - 1, prompt, explain);
      assert Rejected(prompt, explain) + Rejections(n - 1, prompt, explain) + Rejected(prompt, explain)
          == Rejected(prompt, explain) + Rejections(n, prompt, explain);
    } else {
      assert Rejections(0, prompt, explain) == [];
      assert Rejections(1, prompt, explain) == Rejected(prompt, explain) + Rejections(0, prompt, explain);
    }
  }

  /** How the tool ends: an exit code, or an exception it does not catch. */
  datatype Fault = EndOfInput | StoreLoadFailure
  datatype Status = Exit(code: int) | Crash(fault: Fault)

  /** What is written to the output: the key's bytes, or their PEM armour. */
  datatype Written = Raw(bytes: Bytes) | Armoured(text: string)

  /** Written content and its destination: a file, or standard output when absent. */
  datatype Output = Output(destination: Option<string>, content: Written)

  /** The result of a run: status, standard-error trace, lines read, and output. */
  datatype Outcome = Outcome(status: Status, messages: seq<Message>, consumed: nat, output: Option<Output>)

  /** The option fields once the defaults are applied. */
  function Defaults(o: Options, env: Environment): (d: Options)
    ensures d.keystore.Some? && d.storetype.Some? && d.alias.Some?
    ensures d.keystore == if o.keystore.Some? then o.keystore else Some(DefaultKeystore(env))
    ensures d.storetype == if o.storetype.Some? then o.storetype else Some(env.defaultStoretype)
    ensures d.alias == if o.alias.Some? then o.alias else Some(DefaultAlias)
    ensures d.keypass == if o.keypass.Some? then o.keypass else o.storepass
    ensures d.(keystore := o.keystore, storetype := o.storetype, alias := o.alias, keypass := o.keypass) == o
  {
    o.(keystore := Some(o.keystore.GetOr(DefaultKeystore(env))),
       storetype := Some(o.storetype.GetOr(env.defaultStoretype)),
       alias := Some(o.alias.GetOr(DefaultAlias)),
       keypass := if o.keypass.Some? then o.keypass else o.storepass)
  }

  /**
   * The store password: the given one as it is; for the public-key export one
   * prompt whose answer is taken as it is; otherwise the three-prompt retry
   * loop that explains each too-short answer.
   */
  function StorePassword(given: Option<string>, publicKey: bool, input: seq<string>): (c: Collection)
    ensures c.next <= |input|
    ensures given.Some? ==> c.messages == [] && c.next == 0 && c.candidate == Accepted(given.value)
    ensures given.None? && publicKey ==>
              && c.messages == [StorePasswordPrompt]
              && c.candidate == (if |input| == 0 then NoMoreInput else Accepted(input[0]))
              && c.next == (if |input| == 0 then 0 else 1)
    ensures given.None? && !publicKey && c.candidate.Accepted? ==>
              !TooShort(c.candidate.password)
  {
    if given.Some? then Collection([], Accepted(given.value), 0)
    else if publicKey then
      if |input| == 0 then Collection([StorePasswordPrompt], NoMoreInput, 0)
      else Collection([StorePasswordPrompt], Accepted(input[0]), 1)
    else
      CollectOutcome(input, 0, Attempts, StorePasswordPrompt, true);
      Collect(input, 0, Attempts, StorePasswordPrompt, true)
  }

  /** The empty password opens the store as no password at all. */
  function LoadPassword(storepass: string): Option<string> {
    if storepass == "" then None else Some(storepass)
  }

  /** How getting the key ended, with the messages printed and the next unread line. */
  datatype Retrieval =
    | Retrieved(key: Bytes, messages: seq<Message>, next: nat)
    | Refused(status: Status, messages: seq<Message>, next: nat)

  /**
   * The key at `alias`: for the public-key export the certificate's public
   * key; otherwise `getKey` with the entry password (the store password when
   * none was given), and when that fails, a silent three-prompt retry loop for
   * a candidate and exactly one more `getKey`.
   */
  function RetrieveKey(store: Store, alias: string, publicKey: bool, keypass: Option<string>,
                       storepass: string, input: seq<string>, pos: nat): Retrieval
    requires pos <= |input|
  {
    if publicKey then Retrieved(store.certificateKey(alias), [], pos)
    else
      match store.getKey(alias, keypass.GetOr(storepass))
      case Some(key) => Retrieved(key, [], pos)
      case None =>
        var c := Collect(input, pos, Attempts, KeyPasswordPrompt(alias), false);
        match c.candidate
        case NoMoreInput => Refused(Crash(EndOfInput), c.messages, c.next)
        case AllTooShort => Refused(Exit(1), c.messages + [KeyTooManyFailures], c.next)
        case Accepted(retry) =>
          match store.getKey(alias, retry)
          case Some(key) => Retrieved(key, c.messages, c.next)
          case None => Refused(Exit(1), c.messages + [CannotRecoverKey], c.next)
  }

  /** The bytes as written: raw, or PEM armour of their base 64 encoding. */
  function Encoding(key: Bytes, rfc: bool, publicKey: bool): Written {
    if rfc then Armoured(Pem.Armour(Pem.Label(publicKey), Base64.Encode(key))) else Raw(key)
  }

  /**
   * The run from loading the store on, once the store password is known and
   * `pos` lines have been read: load (the empty password as none), warn about
   * an empty password, check the alias, get the key, and encode it.
   */
  function OpenAndExport(d: Options, publicKey: bool, env: Environment, input: seq<string>,
                         storepass: string, pos: nat): Outcome
    requires d.keystore.Some? && d.storetype.Some? && d.alias.Some? && pos <= |input|
  {
    match env.load(d.keystore.value, d.storetype.value, LoadPassword(storepass))
    case LoadFailed => Outcome(Crash(StoreLoadFailure), [], pos, None)
    case Unrecoverable => Outcome(Exit(1), [StoreUnrecoverable], pos, None)
    case Loaded(store) =>
      var warning := if storepass == "" then [NoProtectionWarning] else [];
      var alias := d.alias.value;
      if alias !in store.aliases then Outcome(Exit(1), warning + [AliasMissing(alias)], pos, None)
      else
        match RetrieveKey(store, alias, publicKey, d.keypass, storepass, input, pos)
        case Refused(status, messages, next) => Outcome(status, warning + messages, next, None)
        case Retrieved(key, messages, next) =>
          Outcome(Exit(0), warning + messages, next, Some(Output(d.file, Encoding(key, d.rfc, publicKey))))
  }

  /** The run after a successful parse, from the parsed options. */
  function Pipeline(o: Options, publicKey: bool, env: Environment, input: seq<string>): Outcome {
    if o.help then Outcome(Exit(0), [HelpText], 0, None)
    else
      var d := Defaults(o, env);
      if d.keystore.value !in env.files then Outcome(Exit(1), [KeystoreMissing(d.keystore.value)], 0, None)
      else if d.storetype.value !in env.storetypes then Outcome(Exit(1), [UnknownStoretype(d.storetype.value)], 0, None)
      else
        var sp := StorePassword(d.storepass, publicKey, input);
        match sp.candidate
        case NoMoreInput => Outcome(Crash(EndOfInput), sp.messages, sp.next, None)
        case AllTooShort => Outcome(Exit(1), sp.messages + [StoreTooManyFailures], sp.next, None)
        case Accepted(storepass) =>
          var rest := OpenAndExport(d, publicKey, env, input, storepass, sp.next);
          rest.(messages := sp.messages + rest.messages)
  }

  /** The run gets as far as obtaining the store password. */
  predicate ReachesStorePassword(o: Options, env: Environment) {
    var d := Defaults(o, env);
    !o.help && d.keystore.value in env.files && d.storetype.value in env.storetypes
  }

  /** `-help` prints the help text and ends with 0, touching neither store nor console. */
  lemma HelpTouchesNothing(o: Options, publicKey: bool, env: Environment, input: seq<string>)
    requires o.help
    ensures Pipeline(o, publicKey, env, input) == Outcome(Exit(0), [HelpText], 0, None)
  {
  }

  /**
   * The checks fail fast in a fixed order: a missing store file ends the run
   * before any prompt, then an unknown store type; output is produced only when
   * the file exists, the type is known, the store loads and holds the alias.
   */
  lemma FailFastOrder(o: Options, publicKey: bool, env: Environment, input: seq<string>)
    ensures var d := Defaults(o, env);
            var r := Pipeline(o, publicKey, env, input);
            (!o.help && d.keystore.value !in env.files ==>
               r == Outcome(Exit(1), [KeystoreMissing(d.keystore.value)], 0, None)) &&
            (!o.help && d.keystore.value in env.files && d.storetype.value !in env.storetypes ==>
               r == Outcome(Exit(1), [UnknownStoretype(d.storetype.value)], 0, None)) &&
            (r.output.Some? ==>
               r.status == Exit(0) && ReachesStorePassword(o, env) &&
               var sp := StorePassword(d.storepass, publicKey, input);
               sp.candidate.Accepted? &&
               var loaded := env.load(d.keystore.value, d.storetype.value, LoadPassword(sp.candidate.password));
               loaded.Loaded? && d.alias.value in loaded.store.aliases)
  {
  }

  /** Getting the key prints only entry-password prompts and its own error messages. */
  lemma KeyRetrievalMessages(store: Store, alias: string, publicKey: bool, keypass: Option<string>,
                             storepass: string, input: seq<string>, pos: nat)
    requires pos <= |input|
    ensures var k := RetrieveKey(store, alias, publicKey, keypass, storepass, input, pos);
            (forall m :: m in k.messages ==>
               m == KeyPasswordPrompt(alias) || m == KeyTooManyFailures || m == CannotRecoverKey) &&
            (publicKey ==> k.messages == [] && k.next == pos)
  {
    if !publicKey && store.getKey(alias, keypass.GetOr(storepass)).None? {
      CollectTrace(input, pos, Attempts, KeyPasswordPrompt(alias), false);
      var c := Collect(input, pos, Attempts, KeyPasswordPrompt(alias), false);
      RejectionsOfSilentPrompt(Shorts(c, pos), KeyPasswordPrompt(alias));
    }
  }

  /** Silent rejections print nothing but the prompt. */
  lemma {:induction false} RejectionsOfSilentPrompt(n: nat, prompt: Message)
    ensures forall m :: m in Rejections(n, prompt, false) ==> m == prompt
  {
    if n > 0 {
      RejectionsOfSilentPrompt(n - 1, prompt);
    }
  }

  /**
   * From loading the store on, nothing about the store password is printed;
   * the "no protection" warning is printed exactly when the store loaded with
   * the empty password; entry-password prompts occur only on the private-key
   * path; and the public path reads no further line.
   */
  lemma OpenAndExportMessages(d: Options, publicKey: bool, env: Environment, input: seq<string>,
                              storepass: string, pos: nat)
    requires d.keystore.Some? && d.storetype.Some? && d.alias.Some? && pos <= |input|
    ensures var r := OpenAndExport(d, publicKey, env, input, storepass, pos);
            StorePasswordPrompt !in r.messages && PasswordTooShort !in r.messages &&
            StoreTooManyFailures !in r.messages &&
            (NoProtectionWarning in r.messages <==>
               storepass == "" && env.load(d.keystore.value, d.storetype.value, None).Loaded?) &&
            (publicKey ==> r.consumed == pos && forall m :: m in r.messages ==> !m.KeyPasswordPrompt?)
  {
    match env.load(d.keystore.value, d.storetype.value, LoadPassword(storepass))
    case Loaded(store) =>
      if d.alias.value in store.aliases {
        KeyRetrievalMessages(store, d.alias.value, publicKey, d.keypass, storepass, input, pos);
      }
    case _ =>
  }

  /**
   * Three emoji make six UTF-16 code units, so the private-path retry loop
   * accepts them on the first prompt.
   */
  lemma SupplementaryPasswordAccepted()
    ensures var password := "\U{1F600}\U{1F600}\U{1F600}";
            Collect([password], 0, Attempts, StorePasswordPrompt, true) ==
              Collection([StorePasswordPrompt], Accepted(password), 1)
  {
    var password := "\U{1F600}\U{1F600}\U{1F600}";
    TooShortCountsCodeUnits(password);
  }

  /** A store password given as an option is used as it is: no prompt, no length check. */
  lemma GivenStorePasswordNotPrompted(o: Options, publicKey: bool, env: Environment, input: seq<string>)
    requires o.storepass.Some?
    ensures var r := Pipeline(o, publicKey, env, input);
            StorePasswordPrompt !in r.messages && PasswordTooShort !in r.messages &&
            StoreTooManyFailures !in r.messages
  {
    if ReachesStorePassword(o, env) {
      var d := Defaults(o, env);
      OpenAndExportMessages(d, publicKey, env, input, o.storepass.value, 0);
    }
  }

  /**
   * The public-key export never prompts for an entry password: it reads at
   * most the one store-password line, and none when the password was given.
   */
  lemma PublicExportNeverAsksEntryPassword(o: Options, env: Environment, input: seq<string>)
    ensures var r := Pipeline(o, true, env, input);
            (forall m :: m in r.messages ==> !m.KeyPasswordPrompt?) &&
            r.consumed <= 1 && (o.storepass.Some? ==> r.consumed == 0)
  {
    if ReachesStorePassword(o, env) {
      var d := Defaults(o, env);
      var sp := StorePassword(d.storepass, true, input);
      if sp.candidate.Accepted? {
        OpenAndExportMessages(d, true, env, input, sp.candidate.password, sp.next);
      }
    }
  }

  /**
   * The "no protection" warning is printed only after the store loaded with
   * the empty password, which can come from `-storepass ""` or from an empty
   * answer to the public-key export's single prompt, never from the retry loop.
   */
  lemma WarningOnlyForEmptyStorePassword(o: Options, publicKey: bool, env: Environment, input: seq<string>)
    ensures var r := Pipeline(o, publicKey, env, input);
            var d := Defaults(o, env);
            NoProtectionWarning in r.messages <==>
              ReachesStorePassword(o, env) &&
              (o.storepass == Some("") || (o.storepass.None? && publicKey && |input| > 0 && input[0] == "")) &&
              env.load(d.keystore.value, d.storetype.value, None).Loaded?
  {
    if ReachesStorePassword(o, env) {
      var d := Defaults(o, env);
      var sp := StorePassword(d.storepass, publicKey, input);
      if sp.candidate.Accepted? {
        OpenAndExportMessages(d, publicKey, env, input, sp.candidate.password, sp.next);
      } else if !publicKey && o.storepass.None? {
        CollectTrace(input, 0, Attempts, StorePasswordPrompt, true);
        RejectionsOfExplainedPrompt(Shorts(sp, 0));
      }
    }
  }

  /** Explained rejections print only prompts and "too short". */
  lemma {:induction false} RejectionsOfExplainedPrompt(n: nat)
    ensures forall m :: m in Rejections(n, StorePasswordPrompt, true) ==>
              m == StorePasswordPrompt || m == PasswordTooShort
  {
    if n > 0 {
      RejectionsOfExplainedPrompt(n - 1);
    }
  }

  /** Without a given store password, the private-key export prompts for it at most three times. */
  lemma PrivateStorePasswordPromptsAtMostThrice(o: Options, env: Environment, input: seq<string>)
    requires ReachesStorePassword(o, env) && o.storepass.None?
    ensures multiset(Pipeline(o, false, env, input).messages)[StorePasswordPrompt] <= Attempts
  {
    var d := Defaults(o, env);
    var sp := Collect(input, 0, Attempts, StorePasswordPrompt, true);
    CollectPromptCount(input, 0, Attempts, StorePasswordPrompt, true);
    var r := Pipeline(o, false, env, input);
    if sp.candidate.Accepted? {
      OpenAndExportMessages(d, false, env, input, sp.candidate.password, sp.next);
      var rest := OpenAndExport(d, false, env, input, sp.candidate.password, sp.next);
      assert r.messages == sp.messages + rest.messages;
      assert multiset(r.messages) == multiset(sp.messages) + multiset(rest.messages);
    } else if sp.candidate.AllTooShort? {
      assert r.messages == sp.messages + [StoreTooManyFailures];
      assert multiset(r.messages) == multiset(sp.messages) + multiset([StoreTooManyFailures]);
    }
  }

  /** A retry loop prints its prompt at most `tries` times. */
  lemma CollectPromptCount(input: seq<string>, pos: nat, tries: nat, prompt: Message, explain: bool)
    requires pos <= |input| && prompt != PasswordTooShort
    ensures multiset(Collect(input, pos, tries, prompt, explain).messages)[prompt] <= tries
  {
    var c := Collect(input, pos, tries, prompt, explain);
    CollectOutcome(input, pos, tries, prompt, explain);
    CollectTrace(input, pos, tries, prompt, explain);
    var n := Shorts(c, pos);
    RejectionsPromptCount(n, prompt, explain);
    var tail: seq<Message> := if c.candidate.AllTooShort? then [] else [prompt];
    assert multiset(c.messages) == multiset(Rejections(n, prompt, explain)) + multiset(tail);
  }

  /**
   * When the first three lines are all shorter than six characters, the
   * private-key export explains each, prints "too many failures" and exits
   * with 1 without a fourth prompt.
   */
  lemma PrivateStorePasswordGivesUp(o: Options, env: Environment, input: seq<string>)
    requires ReachesStorePassword(o, env) && o.storepass.None?
    requires |input| >= Attempts && forall j :: 0 <= j < Attempts ==> TooShort(input[j])
    ensures Pipeline(o, false, env, input) ==
              Outcome(Exit(1), Rejections(Attempts, StorePasswordPrompt, true) + [StoreTooManyFailures], Attempts, None)
  {
    var sp := Collect(input, 0, Attempts, StorePasswordPrompt, true);
    CollectTrace(input, 0, Attempts, StorePasswordPrompt, true);
    assert sp.candidate.AllTooShort?;
  }

  /** Each rejection prints its prompt once. */
  lemma {:induction false} RejectionsPromptCount(n: nat, prompt: Message, explain: bool)
    requires prompt != PasswordTooShort
    ensures multiset(Rejections(n, prompt, explain))[prompt] == n
  {
    if n > 0 {
      RejectionsPromptCount(n - 1, prompt, explain);
      assert multiset(Rejected(prompt, explain))[prompt] == 1;
    }
  }

  /**
   * A missing alias ends the run with 1 and the "does not exist" message,
   * whichever export was asked for, once the store has loaded.
   */
  lemma AliasMissingExits(o: Options, publicKey: bool, env: Environment, input: seq<string>)
    requires ReachesStorePassword(o, env)
    ensures var d := Defaults(o, env);
            var sp := StorePassword(d.storepass, publicKey, input);
            var r := Pipeline(o, publicKey, env, input);
            sp.candidate.Accepted? &&
            env.load(d.keystore.value, d.storetype.value, LoadPassword(sp.candidate.password)).Loaded? &&
            d.alias.value !in env.load(d.keystore.value, d.storetype.value, LoadPassword(sp.candidate.password)).store.aliases
            ==>
            r.status == Exit(1) && r.output.None? && r.consumed == sp.next &&
            |r.messages| > 0 && r.messages[|r.messages| - 1] == AliasMissing(d.alias.value)
  {
  }

  /**
   * On the private-key path, when the first unlock fails: a silent retry loop
   * of at most three prompts, then exactly one more unlock with the candidate.
   * The key returned is the one that candidate unlocks; a refusal with 1 is
   * "too many failures" after three short lines, or "cannot recover key" after
   * the one retry failed.
   */
  lemma PrivateKeyRetry(store: Store, alias: string, keypass: Option<string>, storepass: string,
                        input: seq<string>, pos: nat)
    requires pos <= |input| && store.getKey(alias, keypass.GetOr(storepass)).None?
    ensures var k := RetrieveKey(store, alias, false, keypass, storepass, input, pos);
            pos <= k.next <= pos + Attempts && PasswordTooShort !in k.messages &&
            (k.Retrieved? ==>
               pos < k.next && !TooShort(input[k.next - 1]) &&
               store.getKey(alias, input[k.next - 1]) == Some(k.key)) &&
            (k.Refused? && k.status == Exit(1) ==>
               |k.messages| > 0 &&
               ((k.messages[|k.messages| - 1] == KeyTooManyFailures && k.next == pos + Attempts &&
                 forall j :: pos <= j < k.next ==> TooShort(input[j])) ||
                (k.messages[|k.messages| - 1] == CannotRecoverKey && pos < k.next &&
                 !TooShort(input[k.next - 1]) && store.getKey(alias, input[k.next - 1]).None?)))
  {
    KeyRetrievalMessages(store, alias, false, keypass, storepass, input, pos);
  }

  /**
   * A wrong entry password followed by one long-enough line: the key if that
   * line unlocks it, otherwise "cannot recover key" and 1; either way after
   * exactly one prompt.
   */
  lemma WrongEntryPasswordThenOneRetry(store: Store, alias: string, keypass: Option<string>, storepass: string,
                                       input: seq<string>, pos: nat)
    requires pos < |input| && !TooShort(input[pos])
    requires store.getKey(alias, keypass.GetOr(storepass)).None?
    ensures var k := RetrieveKey(store, alias, false, keypass, storepass, input, pos);
            k == match store.getKey(alias, input[pos])
                 case Some(key) => Retrieved(key, [KeyPasswordPrompt(alias)], pos + 1)
                 case None => Refused(Exit(1), [KeyPasswordPrompt(alias), CannotRecoverKey], pos + 1)
  {
  }

  /** The only exit codes after a successful parse are 0 and 1, and 0 means help or output. */
  lemma PipelineExitCodes(o: Options, publicKey: bool, env: Environment, input: seq<string>)
    ensures var r := Pipeline(o, publicKey, env, input);
            (r.status.Exit? ==> r.status.code == 0 || r.status.code == 1) &&
            (r.status == Exit(0) <==> o.help || r.output.Some?)
  {
    if ReachesStorePassword(o, env) {
      var d := Defaults(o, env);
      var sp := StorePassword(d.storepass, publicKey, input);
      if sp.candidate.Accepted? {
        match env.load(d.keystore.value, d.storetype.value, LoadPassword(sp.candidate.password))
        case Loaded(store) =>
          if d.alias.value in store.aliases {
            var k := RetrieveKey(store, d.alias.value, publicKey, d.keypass, sp.candidate.password, input, sp.next);
            assert k.Refused? ==> k.status != Exit(0);
          }
        case _ =>
      }
    }
  }

  /**
   * Raw output is exactly the key's bytes; PEM output is the BEGIN line, the
   * base 64 text cut into lines of 76 (the last up to 77) and the END line,
   * with PUBLIC exactly for the public-key export, and deleting the body's
   * line breaks gives back the base 64 text.
   */
  lemma OutputFraming(key: Bytes, rfc: bool, publicKey: bool)
    ensures !rfc ==> Encoding(key, rfc, publicKey) == Raw(key)
    ensures rfc ==>
              var body := Pem.JoinLines(Pem.Lines(Base64.Encode(key)));
              Encoding(key, rfc, publicKey) ==
                Armoured(Pem.Header(Pem.Label(publicKey)) + body + Pem.Footer(Pem.Label(publicKey))) &&
              Pem.Strip(body) == Base64.Encode(key) &&
              (Pem.Label(publicKey) == "PUBLIC" <==> publicKey)
  {
    Pem.WrapIsJoinedLines(Base64.Encode(key));
    Base64.EncodingHasNoLineBreak(key);
    Pem.StripWrap(Base64.Encode(key));
  }

  /**
   * The length of a base 64 text is a multiple of four, never one more than a
   * multiple of 76, so every PEM body line the tool writes holds at most 76
   * characters.
   */
  lemma EncodedLinesFitWidth(key: Bytes)
    ensures var lines := Pem.Lines(Base64.Encode(key));
            forall j :: 0 <= j < |lines| ==> |lines[j]| <= Pem.LineWidth
  {
    var body := Base64.Encode(key);
    var groups := (|key| + 2) / 3;
    assert |body| == 4 * groups;
    assert |body| % 4 == 0;
    Pem.LinesFitWidth(body);
  }

  /** A 32-byte key encodes to 44 characters, written as one body line. */
  lemma ShortKeyIsOneLine(key: Bytes, publicKey: bool)
    requires |key| == 32
    ensures |Base64.Encode(key)| == 44
    ensures Encoding(key, true, publicKey) ==
              Armoured(Pem.Header(Pem.Label(publicKey)) + Base64.Encode(key) + Pem.Footer(Pem.Label(publicKey)))
  {
    Pem.ShortBodyIsOneLine(Base64.Encode(key));
  }
}
