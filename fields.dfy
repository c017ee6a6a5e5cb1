/**
 * The field rule both parsers of the progress watcher share: a line that
 * starts with a label sets the field to the rest of the line, trimmed, and
 * since the scan never stops early, the last such line wins.
 */
module Fields {
  import opened Wrappers
  import opened Text

  /** The value a line carrying the label `prefix` holds: the text after the label, trimmed. */
  function LabelValue(line: string, prefix: string): string
    requires StartsWith(line, prefix)
  {
    Trim(line[|prefix|..])
  }

  /** `lines[k]` carries the label `prefix` and no later line does. */
  predicate IsLastWith(lines: seq<string>, prefix: string, k: nat) {
    k < |lines| && StartsWith(lines[k], prefix)
    && forall j :: k < j < |lines| ==> !StartsWith(lines[j], prefix)
  }

  /** The value of the last line of `lines` that starts with `prefix`; None when no line does. */
  function LastLabelled(lines: seq<string>, prefix: string): Option<string> {
    if lines == [] then None
    else if StartsWith(lines[|lines| - 1], prefix) then Some(LabelValue(lines[|lines| - 1], prefix))
    else LastLabelled(lines[..|lines| - 1], prefix)
  }

  /** One more scanned line: it replaces the field when it carries the prefix. */
  lemma LastLabelledStep(lines: seq<string>, prefix: string, i: nat)
    requires i < |lines|
    ensures LastLabelled(lines[..i + 1], prefix)
      == if StartsWith(lines[i], prefix) then Some(LabelValue(lines[i], prefix))
         else LastLabelled(lines[..i], prefix)
  {
    assert lines[..i + 1][..i] == lines[..i];
  }

  /** The field stays unset exactly when no line carries the prefix. */
  lemma {:induction false} LastLabelledAbsent(lines: seq<string>, prefix: string)
    ensures LastLabelled(lines, prefix) == None
      <==> forall i :: 0 <= i < |lines| ==> !StartsWith(lines[i], prefix)
  {
    if lines != [] {
      var init := lines[..|lines| - 1];
      LastLabelledAbsent(init, prefix);
      assert forall i :: 0 <= i < |init| ==> init[i] == lines[i];
    }
  }

  /** The field holds the value of the last line that carries the prefix. */
  lemma {:induction false} LastLabelledWins(lines: seq<string>, prefix: string, k: nat)
    requires IsLastWith(lines, prefix, k)
    ensures LastLabelled(lines, prefix) == Some(LabelValue(lines[k], prefix))
  {
    if k < |lines| - 1 {
      var init := lines[..|lines| - 1];
      assert init[k] == lines[k];
      assert forall j :: k < j < |init| ==> init[j] == lines[j];
      LastLabelledWins(init, prefix, k);
    }
  }

  /** A value as a writer puts it after a label: one line, no surrounding white space. */
  predicate IsWord(w: string) {
    '\n' !in w && (w != [] ==> !IsSpace(w[0]) && !IsSpace(w[|w| - 1]))
  }

  /** The line `prefix + " " + w` carries the label `prefix` with the value `w`. */
  lemma LabelledWord(prefix: string, w: string)
    requires IsWord(w)
    ensures StartsWith(prefix + " " + w, prefix)
    ensures LabelValue(prefix + " " + w, prefix) == w
    ensures Trim(Substring(prefix + " " + w, |prefix|)) == w
  {
    assert (prefix + " " + w)[..|prefix|] == prefix;
    assert (prefix + " " + w)[|prefix|..] == " " + w + "";
    TrimOf(" ", w, "");
  }
}
