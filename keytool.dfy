/**
 * The tool itself: an object holding the arguments, the selected command and
 * the option fields, whose methods fill and use those fields step by step as
 * the source's `ok`, `parse` and `handle` do. Each method is proved against
 * the specification functions of the other modules.
 */
module Tool {
  import opened Wrappers
  import opened Text
  import Commands
  import opened Parser
  import opened Unlock
  import Pem
  import Base64

  /** What `handle` produces from option fields `start`, for the selected `command`. */
  function HandleResult(start: Options, args: seq<string>, command: Option<string>,
                        env: Environment, input: seq<string>): Outcome
  {
    var (o, status) := ParseFrom(args, 0, start, Commands.ExportPrivKey(command));
    match status
    case IllegalOption(arg) => Outcome(Exit(1), [IllegalOptionText(arg)], 0, None)
    case NeedsArgument(arg) => Outcome(Exit(1), [NeedsArgumentText(arg)], 0, None)
    case Parsed => Pipeline(o, Commands.ExportPubKey(command), env, input)
  }

  /** What a whole run produces: `handle` when an export was selected, otherwise 255 and nothing else. */
  function RunResult(args: seq<string>, env: Environment, input: seq<string>): Outcome {
    var command := Commands.LastCommand(args);
    if Commands.Proceeds(command) then HandleResult(Unset, args, command, env, input)
    else Outcome(Exit(Commands.GiveUpCode), [], 0, None)
  }

  /**
   * One retry loop for a password: up to `tries` prompts (three at both call
   * sites), stopping at the first line of at least six characters; each
   * shorter line is rejected, with a "too short" message when `explain` holds.
   */
  method CollectPassword(input: seq<string>, pos: nat, tries: nat, prompt: Message, explain: bool) returns (c: Collection)
    requires pos <= |input| && prompt != PasswordTooShort
    ensures c == Collect(input, pos, tries, prompt, explain)
  {
    var messages: seq<Message> := [];
    var next := pos;
    var candidate: Option<string> := None;
    var i := 0;
    while i < tries
      invariant 0 <= i <= tries && next == pos + i && next <= |input|
      invariant candidate.None? || TooShort(candidate.value)
      invariant messages == Rejections(i, prompt, explain)
      invariant forall j :: pos <= j < next ==> TooShort(input[j])
    {
      messages := messages + [prompt];
      if next == |input| {
        CollectEnds(input, pos, i, tries, prompt, explain);
        return Collection(messages, NoMoreInput, next);
      }
      candidate := Some(input[next]);
      next := next + 1;
      if TooShort(candidate.value) {
        if explain {
          messages := messages + [PasswordTooShort];
        }
        RejectionsAppend(i, prompt, explain);
        i := i + 1;
        continue;
      }
      CollectEnds(input, pos, i, tries, prompt, explain);
      break;
    }
    if candidate.None? || TooShort(candidate.value) {
      CollectEnds(input, pos, tries, tries, prompt, explain);
      c := Collection(messages, AllTooShort, next);
    } else {
      c := Collection(messages, Accepted(candidate.value), next);
    }
  }

  class Keytool {
    const args: seq<string>

    var command: Option<string>

    var help: bool
    var rfc: bool
    var keystore: Option<string>
    var storetype: Option<string>
    var storepass: Option<string>
    var alias: Option<string>
    var keypass: Option<string>
    var file: Option<string>

    /** The option fields as one record. */
    function Opts(): Options
      reads this
    {
      Options(help, rfc, keystore, storetype, storepass, alias, keypass, file)
    }

    constructor (args: seq<string>)
      ensures this.args == args && command == None && Opts() == Unset
    {
      this.args := args;
      command := None;
      help, rfc := false, false;
      keystore, storetype, storepass, alias, keypass, file := None, None, None, None, None, None;
    }

    predicate ExportPubKey()
      reads this
    {
      Commands.ExportPubKey(command)
    }

    predicate ExportPrivKey()
      reads this
    {
      Commands.ExportPrivKey(command)
    }

    /**
     * The scan for the command: every argument naming an operation overwrites
     * the field; the answer is whether the final command is an export.
     */
    method Ok() returns (proceed: bool)
      modifies this`command
      ensures command == if Commands.LastCommand(args).Some? then Commands.LastCommand(args) else old(command)
      ensures proceed == Commands.Proceeds(command)
    {
      for i := 0 to |args|
        invariant command == if Commands.LastCommand(args[..i]).Some? then Commands.LastCommand(args[..i]) else old(command)
      {
        assert args[..i + 1][..i] == args[..i];
        if Lower(args[i]) in Commands.CommandNames {
          command := Some(args[i]);
        }
      }
      assert args[..|args|] == args;
      proceed := ExportPubKey() || ExportPrivKey();
    }

    /** The parse loop over `args`, filling the option fields. */
    method Parse() returns (status: ParseStatus)
      modifies this`help, this`rfc, this`keystore, this`storetype, this`storepass, this`alias, this`keypass, this`file
      ensures (Opts(), status) == ParseFrom(args, 0, old(Opts()), ExportPrivKey())
    {
      var i := 0;
      while i < |args|
        invariant i <= |args|
        invariant ParseFrom(args, i, Opts(), ExportPrivKey()) == ParseFrom(args, 0, old(Opts()), ExportPrivKey())
      {
        var arg := args[i];
        i := i + 1;
        if EqualsIgnoreCase(Commands.ExportPubKeyName, arg) {
        } else if EqualsIgnoreCase(Commands.ExportPrivKeyName, arg) {
        } else if EqualsIgnoreCase(HelpFlag, arg) {
          help := true;
        } else if EqualsIgnoreCase(RfcFlag, arg) {
          rfc := true;
        } else if EqualsIgnoreCase(KeystoreFlag, arg) {
          if i == |args| {
            return NeedsArgument(arg);
          }
          keystore, i := Some(args[i]), i + 1;
        } else if EqualsIgnoreCase(StoretypeFlag, arg) {
          if i == |args| {
            return NeedsArgument(arg);
          }
          storetype, i := Some(args[i]), i + 1;
        } else if EqualsIgnoreCase(StorepassFlag, arg) {
          if i == |args| {
            return NeedsArgument(arg);
          }
          storepass, i := Some(args[i]), i + 1;
        } else if EqualsIgnoreCase(AliasFlag, arg) && i < |args| {
          alias, i := Some(args[i]), i + 1;
        } else if EqualsIgnoreCase(KeypassFlag, arg) && ExportPrivKey() && i < |args| {
          keypass, i := Some(args[i]), i + 1;
        } else if EqualsIgnoreCase(FileFlag, arg) && i < |args| {
          file, i := Some(args[i]), i + 1;
        } else {
          return IllegalOption(arg);
        }
      }
      return Parsed;
    }

    /** The defaults for the store path, store type and alias; the entry password falls back to the store password. */
    method ApplyDefaults(env: Environment)
      modifies this`keystore, this`storetype, this`alias, this`keypass
      ensures Opts() == Defaults(old(Opts()), env)
    {
      keystore := if keystore.None? then Some(DefaultKeystore(env)) else keystore;
      storetype := if storetype.None? then Some(env.defaultStoretype) else storetype;
      alias := if alias.None? then Some(DefaultAlias) else alias;
      keypass := if keypass.None? then storepass else keypass;
    }

    /**
     * The store password: the field as given, one prompt on the public-key
     * path, or the explained retry loop otherwise.
     */
    method ObtainStorePassword(input: seq<string>) returns (c: Collection)
      modifies this`storepass
      ensures c == StorePassword(old(storepass), ExportPubKey(), input)
      ensures storepass == if old(storepass).None? && c.candidate.Accepted? then Some(c.candidate.password) else old(storepass)
    {
      if storepass.Some? {
        return Collection([], Accepted(storepass.value), 0);
      }
      if ExportPubKey() {
        if |input| == 0 {
          return Collection([StorePasswordPrompt], NoMoreInput, 0);
        }
        storepass := Some(input[0]);
        return Collection([StorePasswordPrompt], Accepted(input[0]), 1);
      }
      c := CollectPassword(input, 0, Attempts, StorePasswordPrompt, true);
      if c.candidate.Accepted? {
        storepass := Some(c.candidate.password);
      }
    }

    /**
     * The key at the alias: the certificate's public key, or `getKey` with the
     * entry password (the store password when there is none), then the silent
     * retry loop and exactly one more `getKey`.
     */
    method RecoverKey(store: Store, input: seq<string>, pos: nat) returns (r: Retrieval)
      requires alias.Some? && storepass.Some? && pos <= |input|
      modifies this`keypass
      ensures r == RetrieveKey(store, alias.value, ExportPubKey(), old(keypass), storepass.value, input, pos)
    {
      if ExportPubKey() {
        return Retrieved(store.certificateKey(alias.value), [], pos);
      }
      var first := if keypass.None? then storepass.value else keypass.value;
      var key := store.getKey(alias.value, first);
      if key.Some? {
        return Retrieved(key.value, [], pos);
      }
      var c := CollectPassword(input, pos, Attempts, KeyPasswordPrompt(alias.value), false);
      if c.candidate.NoMoreInput? {
        return Refused(Crash(EndOfInput), c.messages, c.next);
      }
      if c.candidate.AllTooShort? {
        return Refused(Exit(1), c.messages + [KeyTooManyFailures], c.next);
      }
      keypass := Some(c.candidate.password);
      key := store.getKey(alias.value, keypass.value);
      if key.None? {
        return Refused(Exit(1), c.messages + [CannotRecoverKey], c.next);
      }
      r := Retrieved(key.value, c.messages, c.next);
    }

    /** The output: PEM armour when `-rfc` was given, otherwise the raw bytes. */
    method Write(key: Bytes) returns (w: Written)
      ensures w == Encoding(key, rfc, ExportPubKey())
    {
      if rfc {
        var text := Pem.WriteArmoured(if ExportPubKey() then "PUBLIC" else "PRIVATE", Base64.Encode(key));
        w := Armoured(text);
      } else {
        w := Raw(key);
      }
    }

    /**
     * Parse the options, then (unless `-help`) apply defaults, check the
     * store file and type, obtain the store password, load the store, warn
     * about an empty password, check the alias, get the key and write it.
     */
    method Handle(env: Environment, input: seq<string>) returns (outcome: Outcome)
      modifies this`help, this`rfc, this`keystore, this`storetype, this`storepass, this`alias, this`keypass, this`file
      ensures outcome == HandleResult(old(Opts()), args, command, env, input)
    {
      var status := Parse();
      if status.IllegalOption? {
        return Outcome(Exit(1), [IllegalOptionText(status.arg)], 0, None);
      }
      if status.NeedsArgument? {
        return Outcome(Exit(1), [NeedsArgumentText(status.arg)], 0, None);
      }
      outcome := Proceed(env, input);
    }

    /**
     * The run after a successful parse: the help text, or the defaults, the
     * store file and type checks, the store password and the export.
     */
    method Proceed(env: Environment, input: seq<string>) returns (outcome: Outcome)
      modifies this`keystore, this`storetype, this`storepass, this`alias, this`keypass
      ensures outcome == Pipeline(old(Opts()), ExportPubKey(), env, input)
      ensures old(help) ==> Opts() == old(Opts())
      ensures !old(help) ==> keystore == Defaults(old(Opts()), env).keystore &&
                             storetype == Defaults(old(Opts()), env).storetype &&
                             alias == Defaults(old(Opts()), env).alias
    {
      if help {
        return Outcome(Exit(0), [HelpText], 0, None);
      }
      ApplyDefaults(env);
      if keystore.value !in env.files {
        return Outcome(Exit(1), [KeystoreMissing(keystore.value)], 0, None);
      }
      if storetype.value !in env.storetypes {
        return Outcome(Exit(1), [UnknownStoretype(storetype.value)], 0, None);
      }
      var sp := ObtainStorePassword(input);
      if sp.candidate.NoMoreInput? {
        return Outcome(Crash(EndOfInput), sp.messages, sp.next, None);
      }
      if sp.candidate.AllTooShort? {
        return Outcome(Exit(1), sp.messages + [StoreTooManyFailures], sp.next, None);
      }
      assert storepass == Some(sp.candidate.password);
      var rest := Export(env, input, sp.next);
      outcome := rest.(messages := sp.messages + rest.messages);
    }

    /**
     * With the store password known: load the store, warn about an empty
     * password, check the alias, get the key and write it.
     */
    method Export(env: Environment, input: seq<string>, pos: nat) returns (outcome: Outcome)
      requires keystore.Some? && storetype.Some? && storepass.Some? && alias.Some? && pos <= |input|
      modifies this`keypass
      ensures outcome == OpenAndExport(old(Opts()), ExportPubKey(), env, input, storepass.value, pos)
    {
      var loaded := env.load(keystore.value, storetype.value, if storepass.value == "" then None else Some(storepass.value));
      if loaded.LoadFailed? {
        return Outcome(Crash(StoreLoadFailure), [], pos, None);
      }
      if loaded.Unrecoverable? {
        return Outcome(Exit(1), [StoreUnrecoverable], pos, None);
      }
      var messages := [];
      if storepass.value == "" {
        messages := [NoProtectionWarning];
      }
      if alias.value !in loaded.store.aliases {
        return Outcome(Exit(1), messages + [AliasMissing(alias.value)], pos, None);
      }
      var k := RecoverKey(loaded.store, input, pos);
      if k.Refused? {
        return Outcome(k.status, messages + k.messages, k.next, None);
      }
      var written := Write(k.key);
      outcome := Outcome(Exit(0), messages + k.messages, k.next, Some(Output(file, written)));
    }

    /** `ok()`, then `handle()` or the give-up code, on a freshly constructed tool. */
    method Run(env: Environment, input: seq<string>) returns (outcome: Outcome)
      requires command == None && Opts() == Unset
      modifies this
      ensures outcome == RunResult(args, env, input)
      ensures command == Commands.LastCommand(args)
    {
      var proceed := Ok();
      if proceed {
        outcome := Handle(env, input);
      } else {
        outcome := Outcome(Exit(Commands.GiveUpCode), [], 0, None);
      }
    }
  }

  /** The program's entry point without the process exit: construct the tool and run it. */
  method Execute(args: seq<string>, env: Environment, input: seq<string>) returns (outcome: Outcome)
    ensures outcome == RunResult(args, env, input)
  {
    var tool := new Keytool(args);
    outcome := tool.Run(env, input);
  }

  /**
   * The run gives up with 255 exactly when the last command named is not one
   * of the two exports, and then it prints, reads and writes nothing.
   */
  lemma GiveUpIffNoExport(args: seq<string>, env: Environment, input: seq<string>)
    ensures var r := RunResult(args, env, input);
            (r.status == Exit(Commands.GiveUpCode) <==> !Commands.Proceeds(Commands.LastCommand(args))) &&
            (!Commands.Proceeds(Commands.LastCommand(args)) ==> r.messages == [] && r.consumed == 0 && r.output.None?)
  {
    var command := Commands.LastCommand(args);
    if Commands.Proceeds(command) {
      var (o, status) := ParseFrom(args, 0, Unset, Commands.ExportPrivKey(command));
      if status.Parsed? {
        PipelineExitCodes(o, Commands.ExportPubKey(command), env, input);
      }
    }
  }

  /**
   * A run ends with 0, 1 or 255 unless an exception escapes; output is written
   * only by a run that ends with 0 after selecting an export.
   */
  lemma RunExitCodes(args: seq<string>, env: Environment, input: seq<string>)
    ensures var r := RunResult(args, env, input);
            (r.status.Exit? ==> r.status.code == 0 || r.status.code == 1 || r.status.code == Commands.GiveUpCode) &&
            (r.output.Some? ==> r.status == Exit(0) && Commands.Proceeds(Commands.LastCommand(args)))
  {
    var command := Commands.LastCommand(args);
    if Commands.Proceeds(command) {
      var (o, status) := ParseFrom(args, 0, Unset, Commands.ExportPrivKey(command));
      if status.Parsed? {
        PipelineExitCodes(o, Commands.ExportPubKey(command), env, input);
      }
    }
  }

  /**
   * When the public-key export is selected, the run never prompts for an
   * entry password and reads at most the one store-password line.
   */
  lemma PublicExportRun(args: seq<string>, env: Environment, input: seq<string>)
    requires Commands.ExportPubKey(Commands.LastCommand(args))
    ensures var r := RunResult(args, env, input);
            (forall m :: m in r.messages ==> !m.KeyPasswordPrompt?) && r.consumed <= 1
  {
    var command := Commands.LastCommand(args);
    Commands.ExportsAreExclusive(command);
    var (o, status) := ParseFrom(args, 0, Unset, Commands.ExportPrivKey(command));
    if status.Parsed? {
      PublicExportNeverAsksEntryPassword(o, env, input);
    }
  }
}
