/**
 * The option parser: one left-to-right pass over the arguments that fills the
 * option record, or stops at the first token it cannot accept.
 */
module Parser {
  import opened Wrappers
  import opened Text
  import Commands

  /** The option fields the parser fills; an absent value is Java's null. */
  datatype Options = Options(
    help: bool,
    rfc: bool,
    keystore: Option<string>,
    storetype: Option<string>,
    storepass: Option<string>,
    alias: Option<string>,
    keypass: Option<string>,
    file: Option<string>)

  /** The fields of a freshly constructed tool: nothing set. */
  const Unset: Options := Options(false, false, None, None, None, None, None, None)

  /** How parsing ended: all tokens accepted, or the token that stopped it. */
  datatype ParseStatus = Parsed | IllegalOption(arg: string) | NeedsArgument(arg: string)

  const HelpFlag: string := "-help"
  const RfcFlag: string := "-rfc"
  const KeystoreFlag: string := "-keystore"
  const StoretypeFlag: string := "-storetype"
  const StorepassFlag: string := "-storepass"
  const AliasFlag: string := "-alias"
  const KeypassFlag: string := "-keypass"
  const FileFlag: string := "-file"

  /** Every token the parser recognises, in lower case. */
  const OptionNames: seq<string> := [
    Commands.ExportPubKeyName, Commands.ExportPrivKeyName, HelpFlag, RfcFlag,
    KeystoreFlag, StoretypeFlag, StorepassFlag, AliasFlag, KeypassFlag, FileFlag
  ]

  /**
   * The parse loop from token `i` on, with option fields `o` so far;
   * `exportPrivKey` says whether the selected command is `-exportprivkey`.
   * The branches are tried in the order the source tries them: a guard that
   * fails (no token left, or `-keypass` on another command) falls through to
   * "Illegal option", and a flag that must take a value and has none left
   * stops with "needs an argument".
   */
  function ParseFrom(args: seq<string>, i: nat, o: Options, exportPrivKey: bool): (Options, ParseStatus)
    requires i <= |args|
    decreases |args| - i
  {
    if i == |args| then (o, Parsed)
    else
      var arg := args[i];
      var hasNext := i + 1 < |args|;
      if EqualsIgnoreCase(Commands.ExportPubKeyName, arg) then
        ParseFrom(args, i + 1, o, exportPrivKey)
      else if EqualsIgnoreCase(Commands.ExportPrivKeyName, arg) then
        ParseFrom(args, i + 1, o, exportPrivKey)
      else if EqualsIgnoreCase(HelpFlag, arg) then
        ParseFrom(args, i + 1, o.(help := true), exportPrivKey)
      else if EqualsIgnoreCase(RfcFlag, arg) then
        ParseFrom(args, i + 1, o.(rfc := true), exportPrivKey)
      else if EqualsIgnoreCase(KeystoreFlag, arg) then
        if hasNext then ParseFrom(args, i + 2, o.(keystore := Some(args[i + 1])), exportPrivKey)
        else (o, NeedsArgument(arg))
      else if EqualsIgnoreCase(StoretypeFlag, arg) then
        if hasNext then ParseFrom(args, i + 2, o.(storetype := Some(args[i + 1])), exportPrivKey)
        else (o, NeedsArgument(arg))
      else if EqualsIgnoreCase(StorepassFlag, arg) then
        if hasNext then ParseFrom(args, i + 2, o.(storepass := Some(args[i + 1])), exportPrivKey)
        else (o, NeedsArgument(arg))
      else if EqualsIgnoreCase(AliasFlag, arg) && hasNext then
        ParseFrom(args, i + 2, o.(alias := Some(args[i + 1])), exportPrivKey)
      else if EqualsIgnoreCase(KeypassFlag, arg) && exportPrivKey && hasNext then
        ParseFrom(args, i + 2, o.(keypass := Some(args[i + 1])), exportPrivKey)
      else if EqualsIgnoreCase(FileFlag, arg) && hasNext then
        ParseFrom(args, i + 2, o.(file := Some(args[i + 1])), exportPrivKey)
      else
        (o, IllegalOption(arg))
  }

  /** Parsing the whole argument list from the unset fields. */
  function Parse(args: seq<string>, exportPrivKey: bool): (Options, ParseStatus) {
    ParseFrom(args, 0, Unset, exportPrivKey)
  }

  predicate ParsesFully(args: seq<string>, o: Options, exportPrivKey: bool) {
    ParseFrom(args, 0, o, exportPrivKey).1 == Parsed
  }

  /**
   * A token matches a recognised name ignoring case exactly when its
   * lower-cased form is that name.
   */
  lemma MatchesFlag(arg: string)
    ensures EqualsIgnoreCase(Commands.ExportPubKeyName, arg) <==> Lower(arg) == Commands.ExportPubKeyName
    ensures EqualsIgnoreCase(Commands.ExportPrivKeyName, arg) <==> Lower(arg) == Commands.ExportPrivKeyName
    ensures EqualsIgnoreCase(HelpFlag, arg) <==> Lower(arg) == HelpFlag
    ensures EqualsIgnoreCase(RfcFlag, arg) <==> Lower(arg) == RfcFlag
    ensures EqualsIgnoreCase(KeystoreFlag, arg) <==> Lower(arg) == KeystoreFlag
    ensures EqualsIgnoreCase(StoretypeFlag, arg) <==> Lower(arg) == StoretypeFlag
    ensures EqualsIgnoreCase(StorepassFlag, arg) <==> Lower(arg) == StorepassFlag
    ensures EqualsIgnoreCase(AliasFlag, arg) <==> Lower(arg) == AliasFlag
    ensures EqualsIgnoreCase(KeypassFlag, arg) <==> Lower(arg) == KeypassFlag
    ensures EqualsIgnoreCase(FileFlag, arg) <==> Lower(arg) == FileFlag
  {
    forall name | name in OptionNames ensures EqualsIgnoreCase(name, arg) <==> Lower(arg) == name {
      assert IsLowerCase(name);
      MatchLowerCaseName(name, arg);
    }
  }

  /** The recognised names are pairwise different. */
  lemma OptionNamesAreDistinct()
    ensures forall i, j :: 0 <= i < j < |OptionNames| ==> OptionNames[i] != OptionNames[j]
  {
    forall i, j | 0 <= i < j < |OptionNames| ensures OptionNames[i] != OptionNames[j] {
      var a, b := OptionNames[i], OptionNames[j];
      if |a| == |b| {
        assert a[1] != b[1] || a[2] != b[2] || a[6] != b[6];
      }
    }
  }

  /** Parsing from a position inside a suffix does not depend on what precedes it. */
  lemma {:induction false} ParseShift(a: seq<string>, b: seq<string>, j: nat, o: Options, exportPrivKey: bool)
    requires j <= |b|
    ensures ParseFrom(a + b, |a| + j, o, exportPrivKey) == ParseFrom(b, j, o, exportPrivKey)
    decreases |b| - j
  {
    if j < |b| {
      assert (a + b)[|a| + j] == b[j];
      if j + 1 < |b| {
        assert (a + b)[|a| + j + 1] == b[j + 1];
        ParseShift(a, b, j + 2, o.(keystore := Some(b[j + 1])), exportPrivKey);
        ParseShift(a, b, j + 2, o.(storetype := Some(b[j + 1])), exportPrivKey);
        ParseShift(a, b, j + 2, o.(storepass := Some(b[j + 1])), exportPrivKey);
        ParseShift(a, b, j + 2, o.(alias := Some(b[j + 1])), exportPrivKey);
        ParseShift(a, b, j + 2, o.(keypass := Some(b[j + 1])), exportPrivKey);
        ParseShift(a, b, j + 2, o.(file := Some(b[j + 1])), exportPrivKey);
      }
      ParseShift(a, b, j + 1, o, exportPrivKey);
      ParseShift(a, b, j + 1, o.(help := true), exportPrivKey);
      ParseShift(a, b, j + 1, o.(rfc := true), exportPrivKey);
    }
  }

  /**
   * Parsing is sequential: once a prefix has been accepted, the rest is parsed
   * from the fields the prefix left behind.
   */
  lemma {:induction false} ParseAppend(a: seq<string>, b: seq<string>, i: nat, o: Options, exportPrivKey: bool)
    requires i <= |a| && ParseFrom(a, i, o, exportPrivKey).1 == Parsed
    ensures ParseFrom(a + b, i, o, exportPrivKey) == ParseFrom(b, 0, ParseFrom(a, i, o, exportPrivKey).0, exportPrivKey)
    decreases |a| - i
  {
    if i == |a| {
      ParseShift(a, b, 0, o, exportPrivKey);
    } else {
      assert (a + b)[i] == a[i];
      if i + 1 < |a| {
        assert (a + b)[i + 1] == a[i + 1];
      }
      var arg := a[i];
      if EqualsIgnoreCase(Commands.ExportPubKeyName, arg) || EqualsIgnoreCase(Commands.ExportPrivKeyName, arg) {
        ParseAppend(a, b, i + 1, o, exportPrivKey);
      } else if EqualsIgnoreCase(HelpFlag, arg) {
        ParseAppend(a, b, i + 1, o.(help := true), exportPrivKey);
      } else if EqualsIgnoreCase(RfcFlag, arg) {
        ParseAppend(a, b, i + 1, o.(rfc := true), exportPrivKey);
      } else if EqualsIgnoreCase(KeystoreFlag, arg) {
        ParseAppend(a, b, i + 2, o.(keystore := Some(a[i + 1])), exportPrivKey);
      } else if EqualsIgnoreCase(StoretypeFlag, arg) {
        ParseAppend(a, b, i + 2, o.(storetype := Some(a[i + 1])), exportPrivKey);
      } else if EqualsIgnoreCase(StorepassFlag, arg) {
        ParseAppend(a, b, i + 2, o.(storepass := Some(a[i + 1])), exportPrivKey);
      } else if EqualsIgnoreCase(AliasFlag, arg) {
        ParseAppend(a, b, i + 2, o.(alias := Some(a[i + 1])), exportPrivKey);
      } else if EqualsIgnoreCase(KeypassFlag, arg) && exportPrivKey {
        ParseAppend(a, b, i + 2, o.(keypass := Some(a[i + 1])), exportPrivKey);
      } else {
        ParseAppend(a, b, i + 2, o.(file := Some(a[i + 1])), exportPrivKey);
      }
    }
  }

  /**
   * A value-taking flag after an accepted prefix consumes the next token
   * whatever it is, and overwrites any earlier value of its field; `-keypass`
   * does so only for `-exportprivkey`, and is otherwise an illegal option.
   */
  lemma ValueFlagTakesNextToken(a: seq<string>, flag: string, v: string, o: Options, exportPrivKey: bool)
    requires ParsesFully(a, o, exportPrivKey)
    ensures var o1 := ParseFrom(a, 0, o, exportPrivKey).0;
            var r := ParseFrom(a + [flag, v], 0, o, exportPrivKey);
            (EqualsIgnoreCase(KeystoreFlag, flag) ==> r == (o1.(keystore := Some(v)), Parsed)) &&
            (EqualsIgnoreCase(StoretypeFlag, flag) ==> r == (o1.(storetype := Some(v)), Parsed)) &&
            (EqualsIgnoreCase(StorepassFlag, flag) ==> r == (o1.(storepass := Some(v)), Parsed)) &&
            (EqualsIgnoreCase(AliasFlag, flag) ==> r == (o1.(alias := Some(v)), Parsed)) &&
            (EqualsIgnoreCase(FileFlag, flag) ==> r == (o1.(file := Some(v)), Parsed)) &&
            (EqualsIgnoreCase(KeypassFlag, flag) ==>
               r == if exportPrivKey then (o1.(keypass := Some(v)), Parsed) else (o1, IllegalOption(flag)))
  {
    ParseAppend(a, [flag, v], 0, o, exportPrivKey);
    MatchesFlag(flag);
    OptionNamesAreDistinct();
  }

  /**
   * A flag as the very last token: `-keystore`, `-storetype` and `-storepass`
   * need an argument; `-alias`, `-file` and `-keypass` fall through to
   * "Illegal option".
   */
  lemma TrailingFlagRejected(a: seq<string>, flag: string, o: Options, exportPrivKey: bool)
    requires ParsesFully(a, o, exportPrivKey)
    ensures var r := ParseFrom(a + [flag], 0, o, exportPrivKey).1;
            ((EqualsIgnoreCase(KeystoreFlag, flag) || EqualsIgnoreCase(StoretypeFlag, flag) ||
              EqualsIgnoreCase(StorepassFlag, flag)) ==> r == NeedsArgument(flag)) &&
            ((EqualsIgnoreCase(AliasFlag, flag) || EqualsIgnoreCase(FileFlag, flag) ||
              EqualsIgnoreCase(KeypassFlag, flag)) ==> r == IllegalOption(flag))
  {
    ParseAppend(a, [flag], 0, o, exportPrivKey);
    MatchesFlag(flag);
    OptionNamesAreDistinct();
  }

  /** `-keypass` on any command but `-exportprivkey` stops the parse, whatever follows. */
  lemma KeypassOnlyForPrivateExport(a: seq<string>, flag: string, b: seq<string>, o: Options)
    requires ParsesFully(a, o, false) && EqualsIgnoreCase(KeypassFlag, flag)
    ensures ParseFrom(a + [flag] + b, 0, o, false).1 == IllegalOption(flag)
  {
    assert a + [flag] + b == a + ([flag] + b);
    ParseAppend(a, [flag] + b, 0, o, false);
    MatchesFlag(flag);
    OptionNamesAreDistinct();
  }

  /** A token that is none of the recognised names stops the parse, whatever follows. */
  lemma UnknownTokenRejected(a: seq<string>, token: string, b: seq<string>, o: Options, exportPrivKey: bool)
    requires ParsesFully(a, o, exportPrivKey) && !IsOneOf(token, OptionNames)
    ensures ParseFrom(a + [token] + b, 0, o, exportPrivKey).1 == IllegalOption(token)
  {
    assert a + [token] + b == a + ([token] + b);
    ParseAppend(a, [token] + b, 0, o, exportPrivKey);
    MatchesFlag(token);
  }

  /** The operation selectors are accepted and change nothing. */
  lemma SelectorIsSkipped(a: seq<string>, selector: string, b: seq<string>, o: Options, exportPrivKey: bool)
    requires ParsesFully(a, o, exportPrivKey)
    requires EqualsIgnoreCase(Commands.ExportPubKeyName, selector) ||
             EqualsIgnoreCase(Commands.ExportPrivKeyName, selector)
    ensures ParseFrom(a + [selector] + b, 0, o, exportPrivKey) == ParseFrom(a + b, 0, o, exportPrivKey)
  {
    assert a + [selector] + b == a + ([selector] + b);
    ParseAppend(a, [selector] + b, 0, o, exportPrivKey);
    ParseAppend(a, b, 0, o, exportPrivKey);
    ParseShift([selector], b, 0, ParseFrom(a, 0, o, exportPrivKey).0, exportPrivKey);
  }
}
