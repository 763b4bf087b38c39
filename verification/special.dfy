/**
 * The special register names and the values the editor computes for the
 * read-only ones.  The editor itself is outside the model: it is given as the
 * selection count, the selection fragments and the optional document path.
 */
module Special {
  import opened Wrappers

  /** What `read` needs from the editor. */
  datatype Editor = Editor(selectionCount: nat, fragments: seq<string>, path: Option<string>)

  /** The name a buffer without a path is shown under. */
  const SCRATCH_BUFFER_NAME: string := "[scratch]"

  /** `_` discards everything written to it. */
  predicate IsBlackHole(name: char) { name == '_' }

  /** `#`, `.` and `%` are computed from the editor and cannot be written. */
  predicate IsReadOnly(name: char) { name == '#' || name == '.' || name == '%' }

  /** `+` and `*` are backed by the external clipboard. */
  predicate IsClipboard(name: char) { name == '+' || name == '*' }

  predicate IsSpecial(name: char) { IsBlackHole(name) || IsReadOnly(name) || IsClipboard(name) }

  function DigitChar(d: nat): (c: char)
    requires d < 10
    ensures '0' <= c <= '9' && c as int - '0' as int == d
  {
    ('0' as int + d) as char
  }

  predicate IsDigits(s: string) {
    forall i | 0 <= i < |s| :: '0' <= s[i] <= '9'
  }

  /** Decimal text of `n`, as `to_string` writes it: at least one digit and no leading zero. */
  function NatToString(n: nat): (s: string)
    ensures |s| >= 1 && IsDigits(s)
    ensures s[0] == '0' ==> s == "0"
    decreases n
  {
    if n < 10 then [DigitChar(n)] else NatToString(n / 10) + [DigitChar(n % 10)]
  }

  /** The number a string of digits denotes. */
  function ParseDecimal(s: string): nat
    requires IsDigits(s)
    decreases |s|
  {
    if s == [] then 0
    else ParseDecimal(s[..|s| - 1]) * 10 + (s[|s| - 1] as int - '0' as int)
  }

  lemma {:induction false} ParseNatToString(n: nat)
    ensures ParseDecimal(NatToString(n)) == n
    decreases n
  {
    if n >= 10 {
      ParseNatToString(n / 10);
      var s := NatToString(n);
      assert s[..|s| - 1] == NatToString(n / 10);
    }
  }

  /** Distinct selection numbers are written differently. */
  lemma NatToStringInjective(m: nat, n: nat)
    requires NatToString(m) == NatToString(n)
    ensures m == n
  {
    ParseNatToString(m);
    ParseNatToString(n);
  }

  /** The `#` register: `"1"`, `"2"`, …, one per selection. */
  function SelectionIndices(count: nat): (r: seq<string>)
    ensures |r| == count
    ensures forall i | 0 <= i < count :: r[i] == NatToString(i + 1)
    decreases count
  {
    if count == 0 then []
    else SelectionIndices(count - 1) + [NatToString(count)]
  }

  lemma ThreeSelections()
    ensures SelectionIndices(3) == ["1", "2", "3"]
  {
  }

  /** The `%` register's single value: the document path, or the scratch name. */
  function DocumentPath(editor: Editor): (r: string)
    ensures editor.path.Some? ==> r == editor.path.value
    ensures editor.path.None? ==> r == SCRATCH_BUFFER_NAME
  {
    match editor.path
    case Some(p) => p
    case None => SCRATCH_BUFFER_NAME
  }

  /** Position of the first `\n` in `s`, or `|s|` when there is none. */
  function NewlineIndex(s: string): (i: nat)
    ensures i <= |s|
    ensures '\n' !in s[..i]
    ensures i < |s| ==> s[i] == '\n'
  {
    if s == [] then 0
    else if s[0] == '\n' then 0
    else
      var j := NewlineIndex(s[1..]);
      assert s[..j + 1] == [s[0]] + s[1..][..j];
      j + 1
  }

  /**
   * The first item of `str::lines`: nothing for empty text; otherwise the text
   * up to the first `\n`, without a `\r` just before that `\n`.
   */
  function FirstLine(s: string): (r: Option<string>)
    ensures r.None? <==> s == ""
    ensures r.Some? ==> '\n' !in r.value
    ensures r.Some? ==> r.value == s || r.value + "\n" <= s || r.value + "\r\n" <= s
    ensures r.Some? && r.value + "\n" <= s ==> r.value == [] || r.value[|r.value| - 1] != '\r'
  {
    if s == "" then None
    else
      var i := NewlineIndex(s);
      if i == |s| then Some(s)
      else if i > 0 && s[i - 1] == '\r' then
        assert s[..i - 1] + "\r\n" == s[..i + 1];
        Some(s[..i - 1])
      else
        assert s[..i] + "\n" == s[..i + 1];
        Some(s[..i])
  }

  /** Shown for a register with nothing to preview. */
  const EMPTY_PREVIEW: string := "<empty>"

  /** The fixed entries `iter_preview` lists after the stored registers. */
  const SPECIAL_PREVIEWS: seq<(char, string)> := [
    ('_', "<empty>"),
    ('#', "<selection indices>"),
    ('.', "<selection contents>"),
    ('%', "<document path>"),
    ('+', "<system clipboard>"),
    ('*', "<primary clipboard>")
  ]
}
