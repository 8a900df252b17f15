/**
 * PEM armour as the tool writes it: a BEGIN line, the base 64 text with a
 * line break inserted before every 76th character except the very last one,
 * and an END line. The labels are those of RFC 7468 (section 13 for
 * "PUBLIC KEY", section 10 for "PRIVATE KEY"); the 76-column wrapping is the
 * tool's own and differs from the 64 columns of RFC 7468, section 2.
 */
module Pem {

  const LineWidth: nat := 76

  /** The emitting loop writes a line break before index `i` of an `n`-character body. */
  predicate BreaksBefore(i: int, n: int) {
    i > 0 && i % LineWidth == 0 && i < n - 1
  }

  /** What the emitting loop has written after the first `k` characters of `s`. */
  function Emit(s: string, k: nat): string
    requires k <= |s|
  {
    if k == 0 then ""
    else Emit(s, k - 1) + (if BreaksBefore(k - 1, |s|) then "\n" else "") + [s[k - 1]]
  }

  /** The wrapped body of a base 64 text `s`. */
  function Wrap(s: string): string {
    Emit(s, |s|)
  }

  function Label(publicKey: bool): string {
    if publicKey then "PUBLIC" else "PRIVATE"
  }

  function Header(kind: string): string {
    "-----BEGIN " + kind + " KEY-----\n"
  }

  function Footer(kind: string): string {
    "\n-----END " + kind + " KEY-----\n"
  }

  /** The whole armoured text for a base 64 text. */
  function Armour(kind: string, base64: string): string {
    Header(kind) + Wrap(base64) + Footer(kind)
  }

  /** The output loop: the header, then the body one character at a time, then the footer. */
  method WriteArmoured(kind: string, base64: string) returns (text: string)
    ensures text == Armour(kind, base64)
  {
    text := Header(kind);
    var i := 0;
    while i < |base64|
      invariant 0 <= i <= |base64|
      invariant text == Header(kind) + Emit(base64, i)
    {
      if i > 0 && i % LineWidth == 0 && i < |base64| - 1 {
        text := text + "\n";
      }
      text := text + [base64[i]];
      i := i + 1;
    }
    text := text + Footer(kind);
  }

  /** The concatenation of a list of lines. */
  function Concat(lines: seq<string>): string {
    if |lines| == 0 then "" else lines[0] + Concat(lines[1..])
  }

  /** Lines joined with a line break between each two. */
  function JoinLines(lines: seq<string>): string
    requires |lines| >= 1
  {
    if |lines| == 1 then lines[0] else lines[0] + "\n" + JoinLines(lines[1..])
  }

  /**
   * The body cut into its lines: every line but the last holds exactly 76
   * characters, the last holds at most 77 (and at least one for a non-empty
   * body), and together they are the body. No break is put before the last
   * character, so a last line after a break holds at least two.
   */
  function Lines(s: string): (lines: seq<string>)
    ensures |lines| >= 1
    ensures Concat(lines) == s
    ensures forall j :: 0 <= j < |lines| - 1 ==> |lines[j]| == LineWidth
    ensures |lines[|lines| - 1]| <= LineWidth + 1
    ensures |s| > 0 ==> |lines[|lines| - 1]| > 0
    ensures |lines| > 1 ==> |lines[|lines| - 1]| >= 2
    decreases |s|
  {
    if |s| <= LineWidth + 1 then [s]
    else
      var rest := Lines(s[LineWidth..]);
      assert s == s[..LineWidth] + s[LineWidth..];
      [s[..LineWidth]] + rest
  }

  /** Up to position `k` no break is due, so the loop has copied the text unchanged. */
  lemma {:induction false} EmitWithoutBreaks(s: string, k: nat)
    requires k <= |s|
    requires forall i :: 0 <= i < k ==> !BreaksBefore(i, |s|)
    ensures Emit(s, k) == s[..k]
  {
    if k > 0 {
      EmitWithoutBreaks(s, k - 1);
      assert s[..k] == s[..k - 1] + [s[k - 1]];
    }
  }

  /**
   * Past the first line of a body longer than 77 characters, the loop has
   * written the first line, a break, and what it would write for the rest.
   */
  lemma {:induction false} EmitAfterFirstLine(s: string, k: nat)
    requires |s| > LineWidth + 1 && LineWidth < k <= |s|
    ensures Emit(s, k) == s[..LineWidth] + "\n" + Emit(s[LineWidth..], k - LineWidth)
  {
    var t := s[LineWidth..];
    if k == LineWidth + 1 {
      EmitWithoutBreaks(s, LineWidth);
      assert Emit(t, 1) == [s[LineWidth]];
    } else {
      EmitAfterFirstLine(s, k - 1);
      assert BreaksBefore(k - 1, |s|) == BreaksBefore(k - 1 - LineWidth, |t|);
      assert t[k - 1 - LineWidth] == s[k - 1];
    }
  }

  /** The wrapped body is the body's lines joined by line breaks. */
  lemma {:induction false} WrapIsJoinedLines(s: string)
    ensures Wrap(s) == JoinLines(Lines(s))
    decreases |s|
  {
    if |s| <= LineWidth + 1 {
      EmitWithoutBreaks(s, |s|);
    } else {
      EmitAfterFirstLine(s, |s|);
      WrapIsJoinedLines(s[LineWidth..]);
    }
  }

  /**
   * A body whose length is a multiple of four never has a 77-character last
   * line (76 is a multiple of four too), so all its lines fit in 76 columns.
   */
  lemma {:induction false} LinesFitWidth(s: string)
    requires |s| % 4 == 0
    ensures forall j :: 0 <= j < |Lines(s)| ==> |Lines(s)[j]| <= LineWidth
    decreases |s|
  {
    if |s| > LineWidth + 1 {
      var rest := s[LineWidth..];
      assert |rest| == |s| - 76;
      LinesFitWidth(rest);
      assert Lines(s) == [s[..LineWidth]] + Lines(rest);
    }
  }

  /** A body of at most 77 characters is written on one line, unchanged. */
  lemma ShortBodyIsOneLine(s: string)
    requires |s| <= LineWidth + 1
    ensures Wrap(s) == s
  {
    WrapIsJoinedLines(s);
  }

  /** The text with its line breaks deleted. */
  function Strip(t: string): string {
    if |t| == 0 then ""
    else Strip(t[..|t| - 1]) + (if t[|t| - 1] == '\n' then "" else [t[|t| - 1]])
  }

  /** Deleting the line breaks from a wrapped body gives back the base 64 text exactly. */
  lemma StripWrap(s: string)
    requires '\n' !in s
    ensures Strip(Wrap(s)) == s
  {
    StripEmit(s, |s|);
  }

  lemma {:induction false} StripEmit(s: string, k: nat)
    requires k <= |s| && '\n' !in s
    ensures Strip(Emit(s, k)) == s[..k]
  {
    if k > 0 {
      StripEmit(s, k - 1);
      var before := Emit(s, k - 1) + (if BreaksBefore(k - 1, |s|) then "\n" else "");
      assert Emit(s, k) == before + [s[k - 1]];
      assert (before + [s[k - 1]])[..|before|] == before;
      assert s[k - 1] != '\n';
      assert Strip(Emit(s, k)) == Strip(before) + [s[k - 1]];
      if BreaksBefore(k - 1, |s|) {
        assert before == Emit(s, k - 1) + "\n";
        assert before[..|before| - 1] == Emit(s, k - 1);
        assert before[|before| - 1] == '\n';
        assert Strip(before) == Strip(Emit(s, k - 1));
      } else {
        assert before == Emit(s, k - 1);
      }
      assert s[..k] == s[..k - 1] + [s[k - 1]];
    }
  }

  /** The kind names the public key exactly for the public-key export. */
  lemma LabelIsPublicIffPublicExport(publicKey: bool)
    ensures Label(publicKey) == "PUBLIC" <==> publicKey
    ensures !publicKey ==> Label(publicKey) == "PRIVATE"
  {
  }
}
