/**
 * How a batch of values becomes one clipboard string, and the forward-pass
 * check (`contents_are_saved`) that decides whether a clipboard string still
 * holds the batch the register cached.
 */
module ContentMatch {

  /** The platform line ending; the model fixes the non-Windows value. */
  const NATIVE_LINE_ENDING: string := "\n"

  /** The values joined by the native line ending. */
  function Join(vs: seq<string>): string
    decreases |vs|
  {
    if |vs| == 0 then ""
    else if |vs| == 1 then vs[0]
    else Join(vs[..|vs| - 1]) + NATIVE_LINE_ENDING + vs[|vs| - 1]
  }

  /**
   * What `contents_are_saved(values, contents)` decides: with no values, that
   * the clipboard is empty; otherwise that the joined values are a PREFIX of
   * the clipboard (text after the last value is not looked at).
   */
  predicate Matches(values: seq<string>, contents: string) {
    if values == [] then contents == "" else Join(values) <= contents
  }

  lemma JoinSnoc(ws: seq<string>, x: string)
    requires ws != []
    ensures Join(ws + [x]) == Join(ws) + NATIVE_LINE_ENDING + x
  {
    assert (ws + [x])[..|ws|] == ws;
  }

  /** Joining a shorter prefix of the values gives a prefix of the joined text. */
  lemma {:induction false} JoinPrefix(vs: seq<string>, i: nat)
    requires 1 <= i <= |vs|
    ensures Join(vs[..i]) <= Join(vs)
    decreases |vs| - i
  {
    if i < |vs| {
      JoinPrefix(vs, i + 1);
      assert vs[..i + 1][..i] == vs[..i];
      assert Join(vs[..i + 1]) == Join(vs[..i]) + NATIVE_LINE_ENDING + vs[i];
    } else {
      assert vs[..i] == vs;
    }
  }

  /** The joined text starts with the first value. */
  lemma {:induction false} JoinHead(ws: seq<string>)
    requires ws != []
    ensures ws[0] <= Join(ws)
    decreases |ws|
  {
    if |ws| > 1 {
      JoinHead(ws[..|ws| - 1]);
    }
  }

  /** One step of the pass: the remaining text continues the match exactly when it starts with the line ending and the next value. */
  lemma ConsumeStep(values: seq<string>, i: nat, contents: string, rest: string)
    requires 1 <= i < |values|
    requires Join(values[..i]) <= contents && rest == contents[|Join(values[..i])|..]
    ensures (NATIVE_LINE_ENDING <= rest && values[i] <= rest[|NATIVE_LINE_ENDING|..]) <==> Join(values[..i + 1]) <= contents
    ensures Join(values[..i + 1]) <= contents ==>
      |NATIVE_LINE_ENDING| + |values[i]| <= |rest| &&
      rest[|NATIVE_LINE_ENDING| + |values[i]|..] == contents[|Join(values[..i + 1])|..]
  {
    var done := Join(values[..i]);
    assert values[..i + 1][..i] == values[..i];
    assert Join(values[..i + 1]) == done + NATIVE_LINE_ENDING + values[i];
    assert contents == done + rest;
  }

  /**
   * `contents_are_saved`: one forward pass over the values, consuming the
   * first value and then, for each further value, the line ending and that
   * value from the front of the remaining text.
   */
  method ContentsAreSaved(values: seq<string>, contents: string) returns (saved: bool)
    ensures saved == Matches(values, contents)
  {
    if |values| == 0 {
      return contents == "";
    }
    var first := values[0];
    if !(first <= contents) {
      JoinHead(values);
      return false;
    }
    assert values[..1] == [first];
    var rest := contents[|first|..];
    var i := 1;
    while i < |values|
      invariant 1 <= i <= |values|
      invariant Join(values[..i]) <= contents
      invariant rest == contents[|Join(values[..i])|..]
    {
      var value := values[i];
      ConsumeStep(values, i, contents, rest);
      if NATIVE_LINE_ENDING <= rest && value <= rest[|NATIVE_LINE_ENDING|..] {
        rest := rest[|NATIVE_LINE_ENDING| + |value|..];
      } else {
        JoinPrefix(values, i + 1);
        return false;
      }
      i := i + 1;
    }
    assert values[..i] == values;
    return true;
  }

  /** Every value of `vs` is the empty string. */
  predicate AllEmpty(vs: seq<string>) {
    vs == [] || (vs[0] == "" && AllEmpty(vs[1..]))
  }

  lemma {:induction false} AllEmptyMeaning(vs: seq<string>)
    ensures AllEmpty(vs) <==> forall j | 0 <= j < |vs| :: vs[j] == ""
  {
    if vs != [] {
      AllEmptyMeaning(vs[1..]);
      assert forall j | 1 <= j < |vs| :: vs[j] == vs[1..][j - 1];
    }
  }

  /** The values from the first non-empty one on (all of them if the first is non-empty). */
  function DropLeadingEmpty(vs: seq<string>): (r: seq<string>)
    ensures r == [] || r[0] != ""
    ensures |r| <= |vs| && r == vs[|vs| - |r|..]
    ensures AllEmpty(vs[..|vs| - |r|])
  {
    if vs != [] && vs[0] == "" then
      var r := DropLeadingEmpty(vs[1..]);
      assert vs[..|vs| - |r|][1..] == vs[1..][..|vs| - 1 - |r|];
      r
    else vs
  }

  lemma {:induction false} DropLeadingEmptySnoc(vs: seq<string>, x: string)
    ensures DropLeadingEmpty(vs + [x]) ==
      if DropLeadingEmpty(vs) != [] then DropLeadingEmpty(vs) + [x]
      else if x == "" then [] else [x]
  {
    if vs == [] {
      assert vs + [x] == [x];
      assert [x][1..] == [];
    } else {
      assert (vs + [x])[1..] == vs[1..] + [x];
      if vs[0] == "" {
        DropLeadingEmptySnoc(vs[1..], x);
      }
    }
  }

  /** One step of the loop that builds the clipboard text. */
  lemma ClipboardTextStep(values: seq<string>, i: nat)
    requires i < |values|
    ensures var contents := Join(DropLeadingEmpty(values[..i]));
      (if contents != "" then contents + NATIVE_LINE_ENDING else contents) + values[i]
        == Join(DropLeadingEmpty(values[..i + 1]))
  {
    assert values[..i + 1] == values[..i] + [values[i]];
    DropLeadingEmptySnoc(values[..i], values[i]);
    var before := DropLeadingEmpty(values[..i]);
    if before != [] {
      JoinHead(before);
      JoinSnoc(before, values[i]);
    }
  }

  /**
   * The text `Registers::write` builds for the clipboard, as written: the
   * line ending goes in front of a value only when the text built so far is
   * non-empty, so leading empty values leave no trace.
   */
  method ClipboardText(values: seq<string>) returns (contents: string)
    ensures contents == Join(DropLeadingEmpty(values))
  {
    contents := "";
    for i := 0 to |values|
      invariant contents == Join(DropLeadingEmpty(values[..i]))
    {
      ClipboardTextStep(values, i);
      if contents != "" {
        contents := contents + NATIVE_LINE_ENDING;
      }
      contents := contents + values[i];
    }
    assert values[..|values|] == values;
  }

  /** With a non-empty first value the clipboard text is the plain join. */
  lemma ClipboardTextIsJoin(vs: seq<string>)
    requires vs != [] && vs[0] != ""
    ensures Join(DropLeadingEmpty(vs)) == Join(vs)
  {
  }

  lemma {:induction false} JoinDropShorter(vs: seq<string>)
    ensures |Join(DropLeadingEmpty(vs))| <= |Join(vs)|
    ensures |vs| >= 2 && vs[0] == "" ==> |Join(DropLeadingEmpty(vs))| < |Join(vs)|
    decreases |vs|
  {
    if vs != [] && vs[0] == "" {
      JoinDropShorter(vs[1..]);
      if |vs| >= 2 {
        JoinDropFront(vs);
      }
    }
  }

  /** Joining with an empty first value puts a line ending in front of the rest. */
  lemma {:induction false} JoinDropFront(vs: seq<string>)
    requires |vs| >= 2
    ensures Join(vs) == vs[0] + NATIVE_LINE_ENDING + Join(vs[1..])
    decreases |vs|
  {
    if |vs| > 2 {
      JoinDropFront(vs[..|vs| - 1]);
      assert vs[..|vs| - 1][1..] == vs[1..][..|vs| - 2];
      assert vs[..|vs| - 1][0] == vs[0];
    } else {
      assert vs[..1] == [vs[0]] && vs[1..] == [vs[1]];
    }
  }

  /**
   * The clipboard text `write` builds is recognised by `contents_are_saved`
   * as the batch just written exactly when the first value is non-empty or is
   * the only value.
   */
  lemma ClipboardTextMatches(vs: seq<string>)
    requires vs != []
    ensures Matches(vs, Join(DropLeadingEmpty(vs))) <==> (vs[0] != "" || |vs| == 1)
  {
    if vs[0] == "" && |vs| >= 2 {
      JoinDropShorter(vs);
      if Join(vs) <= Join(DropLeadingEmpty(vs)) {
        assert false;
      }
    } else if vs[0] == "" {
      assert vs[1..] == [];
    }
  }

  /** Text after the last value is ignored: `["ab", "cd"]` matches `"ab\ncde"`. */
  lemma TrailingTextAccepted()
    ensures Matches(["ab", "cd"], "ab" + NATIVE_LINE_ENDING + "cde")
  {
    assert ["ab", "cd"][..1] == ["ab"];
  }

  /** A leading empty value loses its line ending: `["", "a"]` becomes `"a"`, which no longer matches. */
  lemma LeadingEmptyValueLost()
    ensures Join(DropLeadingEmpty(["", "a"])) == "a"
    ensures !Matches(["", "a"], Join(DropLeadingEmpty(["", "a"])))
  {
    DropLeadingEmptyOfEmptyThenA();
    JoinOfEmptyThenA();
    assert |"" + NATIVE_LINE_ENDING + "a"| > |"a"|;
  }

  lemma DropLeadingEmptyOfEmptyThenA()
    ensures DropLeadingEmpty(["", "a"]) == ["a"]
  {
    var vs := ["", "a"];
    var a: seq<string> := ["a"];
    assert vs[1..] == a;
    DropLeadingEmptyKeeps(a);
  }

  lemma DropLeadingEmptyKeeps(vs: seq<string>)
    requires vs != [] && |vs[0]| > 0
    ensures DropLeadingEmpty(vs) == vs
  {
  }

  lemma JoinOfEmptyThenA()
    ensures Join(["", "a"]) == "" + NATIVE_LINE_ENDING + "a"
  {
    var vs := ["", "a"];
    assert vs[..1] == [""];
  }

  /** The joined batch always matches itself. */
  lemma JoinMatches(vs: seq<string>)
    ensures Matches(vs, Join(vs))
  {
  }

  /**
   * The clipboard text `Registers::push` sets, as written: the pushed value
   * goes IN FRONT of the old clipboard text, while the register appends it
   * at the END of its newest batch.
   */
  function PushedClipboardText(v: string, contents: string): (r: string)
    ensures v <= r
    ensures |r| == if contents == "" then |v| else |v| + |NATIVE_LINE_ENDING| + |contents|
    ensures r[|r| - |contents|..] == contents
    ensures contents != "" ==> r[|v|..|v| + |NATIVE_LINE_ENDING|] == NATIVE_LINE_ENDING
  {
    v + (if contents != "" then NATIVE_LINE_ENDING else "") + contents
  }

  /**
   * Cache and clipboard fall out of step after a push as written: the batch
   * `["a"]` matches the clipboard `"a"`, but after pushing `"b"` the batch
   * `["a", "b"]` does not match the new clipboard `"b\na"`.
   */
  lemma PushedTextOutOfStep()
    ensures Matches(["a"], "a")
    ensures PushedClipboardText("b", "a") == "b" + NATIVE_LINE_ENDING + "a"
    ensures !Matches(["a", "b"], PushedClipboardText("b", "a"))
  {
    assert Join(["a", "b"]) == Join(["a", "b"][..1]) + NATIVE_LINE_ENDING + "b";
    assert ["a", "b"][..1] == ["a"];
    assert Join(["a", "b"])[0] == 'a' && PushedClipboardText("b", "a")[0] == 'b';
  }

  /** The clipboard text a push evidently intends: the pushed value after the old text. */
  function AppendedClipboardText(batch: seq<string>, contents: string, v: string): (r: string)
    ensures batch != [] ==> contents <= r
  {
    if batch == [] then v else contents + NATIVE_LINE_ENDING + v
  }

  /** With the appended text, a clipboard holding the joined batch holds the joined batch after the push. */
  lemma AppendedTextInStep(batch: seq<string>, v: string)
    ensures AppendedClipboardText(batch, Join(batch), v) == Join(batch + [v])
    ensures Matches(batch + [v], AppendedClipboardText(batch, Join(batch), v))
  {
    if batch != [] {
      JoinSnoc(batch, v);
    } else {
      assert batch + [v] == [v];
    }
  }
}
