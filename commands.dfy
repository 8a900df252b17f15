/**
 * Command resolution: which keytool operation an argument list selects, and
 * whether it is one of the two this tool implements.
 */
module Commands {
  import opened Wrappers
  import opened Text

  /** The keytool operation names the tool recognises, all in lower case. */
  const CommandNames: seq<string> := [
    "-certreq", "-changealias", "-delete", "-exportcert", "-exportpubkey",
    "-exportprivkey", "-genkeypair", "-genseckey", "-gencert", "-importcert",
    "-importkeystore", "-keypasswd", "-list", "-printcert", "-printcertreq",
    "-printcrl", "-storepasswd"
  ]

  const ExportPubKeyName: string := "-exportpubkey"
  const ExportPrivKeyName: string := "-exportprivkey"

  /** The exit code of a run that selects no implemented operation. */
  const GiveUpCode: int := 255

  /** An argument names an operation when its lower-cased form is in the list. */
  predicate IsCommand(arg: string) {
    IsOneOf(arg, CommandNames)
  }

  /**
   * The last argument whose lower-cased form is one of `names`: the value a
   * left-to-right scan ends with when every match overwrites the previous one.
   */
  function LastOneOf(args: seq<string>, names: seq<string>): Option<string> {
    if |args| == 0 then None
    else if IsOneOf(args[|args| - 1], names) then Some(args[|args| - 1])
    else LastOneOf(args[..|args| - 1], names)
  }

  /** The `command` field after `ok()`'s scan, starting from none. */
  function LastCommand(args: seq<string>): Option<string> {
    LastOneOf(args, CommandNames)
  }

  /** `"-exportpubkey".equalsIgnoreCase(command)`; false for an absent command. */
  predicate ExportPubKey(command: Option<string>) {
    command.Some? && EqualsIgnoreCase(ExportPubKeyName, command.value)
  }

  /** `"-exportprivkey".equalsIgnoreCase(command)`; false for an absent command. */
  predicate ExportPrivKey(command: Option<string>) {
    command.Some? && EqualsIgnoreCase(ExportPrivKeyName, command.value)
  }

  /** The run goes on to parsing only when the selected command is an export. */
  predicate Proceeds(command: Option<string>) {
    ExportPubKey(command) || ExportPrivKey(command)
  }

  /** Position `k` holds one of `names` and no later position does. */
  ghost predicate IsLastMatch(args: seq<string>, names: seq<string>, k: int) {
    0 <= k < |args| && IsOneOf(args[k], names) &&
    forall j :: k < j < |args| ==> !IsOneOf(args[j], names)
  }

  /**
   * The scan's result is exactly the last argument among `names`, and there is
   * none exactly when no argument is among them.
   */
  lemma {:induction false} LastOneOfIsLastMatch(args: seq<string>, names: seq<string>)
    ensures LastOneOf(args, names).None? <==>
              forall k :: 0 <= k < |args| ==> !IsOneOf(args[k], names)
    ensures LastOneOf(args, names).Some? ==>
              exists k :: IsLastMatch(args, names, k) && args[k] == LastOneOf(args, names).value
    ensures forall k :: IsLastMatch(args, names, k) ==> LastOneOf(args, names) == Some(args[k])
  {
    if |args| > 0 {
      var n := |args| - 1;
      var front := args[..n];
      LastOneOfIsLastMatch(front, names);
      if IsOneOf(args[n], names) {
        assert IsLastMatch(args, names, n);
      } else {
        assert forall k :: 0 <= k < n ==> front[k] == args[k];
        forall k | IsLastMatch(args, names, k) ensures IsLastMatch(front, names, k) { }
        if LastOneOf(front, names).Some? {
          var k :| IsLastMatch(front, names, k) && front[k] == LastOneOf(front, names).value;
          assert IsLastMatch(args, names, k);
        }
      }
    }
  }

  /** Neither export name is the other, so at most one of the two paths is active. */
  lemma ExportsAreExclusive(command: Option<string>)
    ensures !(ExportPubKey(command) && ExportPrivKey(command))
  {
  }

  /** Both export names are operation names, so each selects itself. */
  lemma ExportNamesAreCommands()
    ensures IsCommand(ExportPubKeyName) && IsCommand(ExportPrivKeyName)
  {
    assert IsLowerCase(ExportPubKeyName) && IsLowerCase(ExportPrivKeyName);
    MatchLowerCaseName(ExportPubKeyName, ExportPubKeyName);
    MatchLowerCaseName(ExportPrivKeyName, ExportPrivKeyName);
  }

  /**
   * The run proceeds exactly when some argument names an operation and the
   * last such argument is `-exportpubkey` or `-exportprivkey`, ignoring case.
   */
  lemma ProceedsIffLastIsExport(args: seq<string>)
    ensures Proceeds(LastCommand(args)) <==>
              exists k :: IsLastMatch(args, CommandNames, k) &&
                (Lower(args[k]) == ExportPubKeyName || Lower(args[k]) == ExportPrivKeyName)
  {
    LastOneOfIsLastMatch(args, CommandNames);
    assert IsLowerCase(ExportPubKeyName) && IsLowerCase(ExportPrivKeyName);
    if LastCommand(args).Some? {
      var c := LastCommand(args).value;
      MatchLowerCaseName(ExportPubKeyName, c);
      MatchLowerCaseName(ExportPrivKeyName, c);
    }
  }
}
