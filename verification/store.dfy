/**
 * The register store: one `Register` per name, kept in a map, plus the
 * routing of the special names and the synchronisation of `+` and `*` with
 * the external clipboard.
 */
module Store {
  import opened Wrappers
  import opened Clipboard
  import opened RegisterHistory
  import opened ContentMatch
  import opened Special

  /** One register: a flat list of values and the size of each yank batch, least recent first. */
  class Register {
    var values: seq<string>
    var lengths: seq<nat>

    function State(): History
      reads this
    {
      History(values, lengths)
    }

    /** The representation invariant, and at most one batch over the history maximum. */
    predicate Valid()
      reads this
    {
      RegisterHistory.Valid(State()) && |lengths| <= MAX_REGISTER_HISTORY_LEN + 1
    }

    /** `Register::default`. */
    constructor ()
      ensures Valid() && State() == Empty
    {
      values := [];
      lengths := [];
    }

    /** `values()`: the newest batch. */
    function Values(): (r: seq<string>)
      reads this
      ensures |r| <= |values|
    {
      Newest(State())
    }

    /** `latest_value()`: the last value stored. */
    function LatestValue(): (r: Option<string>)
      reads this
      ensures r.None? <==> values == []
      ensures r.Some? ==> r.value == values[|values| - 1]
    {
      Latest(State())
    }

    /** `write`: evict the oldest batch when over the maximum, then append `vs` as a new batch. */
    method Write(vs: seq<string>)
      requires Valid() && |vs| > 0
      modifies this
      ensures Valid()
      ensures State() == Written(old(State()), vs)
      ensures Values() == vs
    {
      ghost var h := State();
      if |lengths| > MAX_REGISTER_HISTORY_LEN {
        var oldestLen := lengths[0];
        lengths := lengths[1..];
        values := values[oldestLen..];
      }
      var preYankLen := |values|;
      values := values + vs;
      var yankLen := |values| - preYankLen;
      lengths := lengths + [yankLen];
      WrittenValid(h, vs);
    }

    /** `push`: add `v` to the newest batch, or start the first batch with it. */
    method Push(v: string)
      requires Valid()
      modifies this
      ensures Valid()
      ensures State() == Pushed(old(State()), v)
      ensures Values() == old(Values()) + [v]
      ensures LatestValue() == Some(v)
    {
      ghost var h := State();
      values := values + [v];
      if |lengths| > 0 {
        var n := |lengths|;
        lengths := lengths[..n - 1] + [lengths[n - 1] + 1];
      } else {
        lengths := lengths + [1];
      }
      assert State() == Pushed(h, v);
      PushedValid(h, v);
      PushedNewest(h, v);
    }
  }

  /** The clipboard kind behind `+` and `*`. */
  function ClipboardTypeOf(name: char): (t: ClipboardType)
    requires IsClipboard(name)
    ensures t == Clipboard <==> name == '+'
    ensures t == Selection <==> name == '*'
  {
    if name == '+' then Clipboard else Selection
  }

  /**
   * `read_from_clipboard`: nothing when the backend fails; the cached newest
   * batch when the clipboard text still matches it; otherwise the clipboard
   * text as one value.  Whatever is returned, joined, is a prefix of the
   * clipboard text.
   */
  function ReadFromClipboard(p: Provider, register: Option<History>, t: ClipboardType): (r: seq<string>)
    ensures !GetSucceeds(p, t) ==> r == []
    ensures GetSucceeds(p, t) ==> Join(r) <= Slot(p, t)
    ensures GetSucceeds(p, t) && (register.None? || !Matches(Newest(register.value), Slot(p, t))) ==> r == [Slot(p, t)]
    ensures GetSucceeds(p, t) && register.Some? && Matches(Newest(register.value), Slot(p, t)) ==> r == Newest(register.value)
  {
    match GetContents(p, t)
    case Ok(contents) =>
      if register.None? then [contents]
      else if Matches(Newest(register.value), contents) then Newest(register.value)
      else [contents]
    case Err(_) => []
  }

  /**
   * Round trip through the clipboard: once `write` has stored `vs` and set the
   * clipboard to the text it builds, reading the clipboard gives `vs` back as
   * separate values, provided the first value is non-empty or is the only one.
   */
  lemma ClipboardRoundTrip(p: Provider, h: History, vs: seq<string>, t: ClipboardType)
    requires RegisterHistory.Valid(h) && |vs| > 0 && SetSucceeds(p, t) && GetSucceeds(p, t)
    requires vs[0] != "" || |vs| == 1
    ensures ReadFromClipboard(SetContents(p, Join(DropLeadingEmpty(vs)), t), Some(Written(h, vs)), t) == vs
  {
    WrittenResult(h, vs);
    ClipboardTextMatches(vs);
  }

  /**
   * As written, reading drops text a third party appended after the cached
   * batch: with `["ab", "cd"]` cached and `"ab\ncde"` on the clipboard, the
   * read gives `["ab", "cd"]` and the `"e"` is lost.
   */
  lemma TrailingTextDropped(p: Provider)
    requires Slot(p, Clipboard) == "ab" + NATIVE_LINE_ENDING + "cde" && GetSucceeds(p, Clipboard)
    ensures ReadFromClipboard(p, Some(History(["ab", "cd"], [2])), Clipboard) == ["ab", "cd"]
    ensures Join(["ab", "cd"]) != Slot(p, Clipboard)
  {
    TrailingTextAccepted();
    assert Join(["ab", "cd"]) == Join(["ab", "cd"][..1]) + NATIVE_LINE_ENDING + "cd";
    assert ["ab", "cd"][..1] == ["ab"];
    assert |Join(["ab", "cd"])| == 5;
  }

  /**
   * An empty cached register changes what an empty clipboard reads as: with
   * it the read gives no values, without it one empty value. A clipboard push
   * whose check fails still leaves such a register behind under its name.
   */
  lemma EmptyRegisterHidesEmptyClipboard(p: Provider, t: ClipboardType)
    requires GetSucceeds(p, t) && Slot(p, t) == ""
    ensures ReadFromClipboard(p, Some(Empty), t) == []
    ensures ReadFromClipboard(p, None, t) == [""]
  {
  }

  /** The evidently intended check: the clipboard holds exactly the joined batch. */
  predicate SavedExactly(values: seq<string>, contents: string) {
    contents == Join(values)
  }

  /** `read_from_clipboard` with the exact check: what it returns always joins back to the clipboard text. */
  function ReadFromClipboardExact(p: Provider, register: Option<History>, t: ClipboardType): (r: seq<string>)
    ensures !GetSucceeds(p, t) ==> r == []
    ensures GetSucceeds(p, t) ==> Join(r) == Slot(p, t)
  {
    match GetContents(p, t)
    case Ok(contents) =>
      if register.Some? && SavedExactly(Newest(register.value), contents) then Newest(register.value)
      else [contents]
    case Err(_) => []
  }

  /** The stored register's preview: the first line of its latest value, or the empty placeholder. */
  function Preview(h: History): (r: string)
    ensures '\n' !in r
    ensures Latest(h).None? ==> r == EMPTY_PREVIEW
    ensures Latest(h) == Some("") ==> r == EMPTY_PREVIEW
    ensures Latest(h).Some? && FirstLine(Latest(h).value).Some? ==> r == FirstLine(Latest(h).value).value
    ensures Latest(h).Some? && Latest(h).value != "" && '\n' !in Latest(h).value && '\r' !in Latest(h).value ==>
      r == Latest(h).value
  {
    match Latest(h)
    case None => EMPTY_PREVIEW
    case Some(s) =>
      match FirstLine(s)
      case None => EMPTY_PREVIEW
      case Some(line) => line
  }

  /** A multi-line latest value previews as its first line. */
  lemma PreviewOfTwoLines()
    ensures Preview(History(["ab\ncd"], [1])) == "ab"
  {
    var s := "ab\ncd";
    var line := FirstLine(s).value;
    assert s[2] == '\n';
    if line + "\n" <= s {
      assert s[|line|] == '\n';
      assert line == s[..2];
    }
  }

  /** The history `m` holds under `name`, or the default register's when there is none. */
  function HistoryOf(m: map<char, History>, name: char): History {
    if name in m then m[name] else Empty
  }

  lemma UpdateTwice(m: map<char, History>, k: char, a: History, b: History)
    ensures m[k := a][k := b] == m[k := b]
  {
  }

  /** The register store. */
  class Registers {
    /** Ordinary registers plus the caches behind `+` and `*`. */
    var inner: map<char, Register>
    var provider: Provider
    var lastSearchRegister: char
    /** The histories held, by name: the abstract view of `inner`. */
    ghost var stored: map<char, History>

    ghost predicate Valid()
      reads this, inner.Values
    {
      stored.Keys == inner.Keys &&
      (forall c | c in inner :: inner[c].Valid() && stored[c] == inner[c].State()) &&
      (forall a, b | a in inner && b in inner && a != b :: inner[a] != inner[b])
    }

    /** `Registers::default`, with the clipboard backend passed in. */
    constructor (provider: Provider)
      ensures Valid() && stored == map[]
      ensures this.provider == provider && lastSearchRegister == '/'
    {
      inner := map[];
      stored := map[];
      this.provider := provider;
      lastSearchRegister := '/';
    }

    /** `read`: the values a name stands for, computed for the special names. */
    function Read(name: char, editor: Editor): (r: Option<seq<string>>)
      reads this, inner.Values
      ensures IsBlackHole(name) ==> r == Some([])
      ensures name == '#' ==> r == Some(SelectionIndices(editor.selectionCount))
      ensures name == '.' ==> r == Some(editor.fragments)
      ensures name == '%' ==> r == Some([DocumentPath(editor)])
      ensures IsClipboard(name) ==> r == Some(ReadFromClipboard(provider, RegisterOf(name), ClipboardTypeOf(name)))
      ensures !IsSpecial(name) ==> (r.Some? <==> name in inner)
      ensures !IsSpecial(name) && name in inner ==> r == Some(inner[name].Values())
    {
      match name
      case '_' => Some([])
      case '#' => Some(SelectionIndices(editor.selectionCount))
      case '.' => Some(editor.fragments)
      case '%' => Some([DocumentPath(editor)])
      case '*' => Some(ReadFromClipboard(provider, RegisterOf(name), Selection))
      case '+' => Some(ReadFromClipboard(provider, RegisterOf(name), Clipboard))
      case _ => if name in inner then Some(inner[name].Values()) else None
    }

    /** `inner.get(&name)`, seen through the history it holds. */
    function RegisterOf(name: char): (r: Option<History>)
      reads this, inner.Values
      ensures r.Some? <==> name in inner
      ensures r.Some? ==> r.value == inner[name].State()
    {
      if name in inner then Some(inner[name].State()) else None
    }

    /** `first`: the first value read, if any. */
    function First(name: char, editor: Editor): (r: Option<string>)
      reads this, inner.Values
      ensures r.Some? <==> Read(name, editor).Some? && Read(name, editor).value != []
      ensures r.Some? ==> r.value == Read(name, editor).value[0]
    {
      match Read(name, editor)
      case Some(vs) => if vs == [] then None else Some(vs[0])
      case None => None
    }

    /** `last`: the last value read, if any. */
    function Last(name: char, editor: Editor): (r: Option<string>)
      reads this, inner.Values
      ensures r.Some? <==> Read(name, editor).Some? && Read(name, editor).value != []
      ensures r.Some? ==> r.value == Read(name, editor).value[|Read(name, editor).value| - 1]
    {
      match Read(name, editor)
      case Some(vs) => if vs == [] then None else Some(vs[|vs| - 1])
      case None => None
    }

    /** `entry(name).or_default()`: the register under `name`, inserting a default one when absent. */
    method Entry(name: char) returns (register: Register)
      requires Valid()
      modifies this
      ensures Valid() && name in inner && register == inner[name]
      ensures register.State() == HistoryOf(old(stored), name)
      ensures provider == old(provider) && lastSearchRegister == old(lastSearchRegister)
      ensures forall c | c in old(inner) :: c in inner && inner[c] == old(inner[c])
      ensures name !in old(inner) ==> fresh(register)
      ensures stored == old(stored)[name := HistoryOf(old(stored), name)]
    {
      if name in inner {
        register := inner[name];
      } else {
        register := new Register();
        inner := inner[name := register];
        stored := stored[name := Empty];
      }
    }

    /**
     * `write`: `_` discards, `#`, `.` and `%` refuse, every other name gets
     * `vs` as a new batch; for `+` and `*` the clipboard is then set to the
     * text built from the newest batch, and a failing set is reported while
     * the cache stays written.
     */
    method Write(name: char, vs: seq<string>) returns (r: Result<()>)
      requires Valid()
      requires IsBlackHole(name) || IsReadOnly(name) || |vs| > 0
      modifies this, inner.Values
      ensures Valid() && lastSearchRegister == old(lastSearchRegister)
      ensures IsBlackHole(name) ==> r == Ok(()) && stored == old(stored) && provider == old(provider)
      ensures IsReadOnly(name) ==> r == Err(ReadOnly(name)) && stored == old(stored) && provider == old(provider)
      ensures !IsBlackHole(name) && !IsReadOnly(name) ==>
        stored == old(stored)[name := Written(HistoryOf(old(stored), name), vs)]
      ensures IsClipboard(name) ==>
        provider == SetContents(old(provider), Join(DropLeadingEmpty(vs)), ClipboardTypeOf(name)) &&
        r == SetResult(old(provider), ClipboardTypeOf(name))
      ensures !IsSpecial(name) ==> r == Ok(()) && provider == old(provider)
      ensures !IsSpecial(name) ==> forall e: Editor :: Read(name, e) == Some(vs)
      ensures IsClipboard(name) && SetSucceeds(old(provider), ClipboardTypeOf(name)) &&
              GetSucceeds(old(provider), ClipboardTypeOf(name)) && (vs[0] != "" || |vs| == 1) ==>
        forall e: Editor :: Read(name, e) == Some(vs)
    {
      if IsBlackHole(name) {
        return Ok(());
      }
      if IsReadOnly(name) {
        return Err(ReadOnly(name));
      }
      if IsClipboard(name) {
        r := WriteToClipboard(name, vs);
      } else {
        WriteRegister(name, vs);
        r := Ok(());
      }
    }

    /** The `+`/`*` branch of `write`: the cache takes `vs`, then the clipboard gets its text. */
    method WriteToClipboard(name: char, vs: seq<string>) returns (r: Result<()>)
      requires Valid() && IsClipboard(name) && |vs| > 0
      modifies this, inner.Values
      ensures Valid() && lastSearchRegister == old(lastSearchRegister)
      ensures stored == old(stored)[name := Written(HistoryOf(old(stored), name), vs)]
      ensures provider == SetContents(old(provider), Join(DropLeadingEmpty(vs)), ClipboardTypeOf(name))
      ensures r == SetResult(old(provider), ClipboardTypeOf(name))
      ensures SetSucceeds(old(provider), ClipboardTypeOf(name)) &&
              GetSucceeds(old(provider), ClipboardTypeOf(name)) && (vs[0] != "" || |vs| == 1) ==>
        forall e: Editor :: Read(name, e) == Some(vs)
    {
      ghost var before := HistoryOf(stored, name);
      WriteRegister(name, vs);
      r := SetClipboardText(name, vs);
      if SetSucceeds(old(provider), ClipboardTypeOf(name)) &&
         GetSucceeds(old(provider), ClipboardTypeOf(name)) && (vs[0] != "" || |vs| == 1) {
        ReadAfterWrite(name, old(provider), before, vs);
      }
    }

    /**
     * Once the cache under `+` or `*` holds `vs` as its newest batch and the
     * clipboard was set to the text built from it, `read` gives `vs` back.
     */
    lemma ReadAfterWrite(name: char, p: Provider, h: History, vs: seq<string>)
      requires IsClipboard(name) && name in inner && RegisterHistory.Valid(h) && |vs| > 0
      requires inner[name].State() == Written(h, vs)
      requires SetSucceeds(p, ClipboardTypeOf(name)) && GetSucceeds(p, ClipboardTypeOf(name))
      requires vs[0] != "" || |vs| == 1
      requires provider == SetContents(p, Join(DropLeadingEmpty(vs)), ClipboardTypeOf(name))
      ensures forall e: Editor :: Read(name, e) == Some(vs)
    {
      var t := ClipboardTypeOf(name);
      ClipboardRoundTrip(p, h, vs, t);
      assert RegisterOf(name) == Some(Written(h, vs));
      assert ReadFromClipboard(provider, RegisterOf(name), t) == vs;
    }

    /** The clipboard behind `name` is set to the text built from the cached batch `vs`. */
    method SetClipboardText(name: char, vs: seq<string>) returns (r: Result<()>)
      requires IsClipboard(name)
      modifies this`provider
      ensures provider == SetContents(old(provider), Join(DropLeadingEmpty(vs)), ClipboardTypeOf(name))
      ensures r == SetResult(old(provider), ClipboardTypeOf(name))
    {
      var contents := ClipboardText(vs);
      var t := ClipboardTypeOf(name);
      r := SetResult(provider, t);
      provider := SetContents(provider, contents, t);
    }

    /** `entry(name).or_default().write(vs)`: only the register under `name` changes. */
    method WriteRegister(name: char, vs: seq<string>)
      requires Valid() && |vs| > 0
      modifies this, inner.Values
      ensures Valid() && name in inner && inner[name].Values() == vs
      ensures provider == old(provider) && lastSearchRegister == old(lastSearchRegister)
      ensures stored == old(stored)[name := Written(HistoryOf(old(stored), name), vs)]
    {
      var register := Entry(name);
      WriteAt(name, register, vs);
      UpdateTwice(old(stored), name, HistoryOf(old(stored), name), Written(HistoryOf(old(stored), name), vs));
    }

    /** Writes `vs` into the register already stored under `name`. */
    method WriteAt(name: char, register: Register, vs: seq<string>)
      requires Valid() && name in inner && inner[name] == register && |vs| > 0
      modifies this`stored, register
      ensures Valid() && inner[name].Values() == vs
      ensures stored == old(stored)[name := Written(old(stored[name]), vs)]
    {
      register.Write(vs);
      stored := stored[name := register.State()];
      forall c | c in inner && c != name
        ensures inner[c].Valid() && stored[c] == inner[c].State()
      {
        assert inner[c] != register;
        assert inner[c].values == old(inner[c].values) && inner[c].lengths == old(inner[c].lengths);
        assert stored[c] == old(stored[c]);
      }
    }

    /** `entry(name).or_default().push(v)`: only the register under `name` changes. */
    method PushAt(name: char, register: Register, v: string)
      requires Valid() && name in inner && inner[name] == register
      modifies this`stored, register
      ensures Valid() && inner[name].Values() == old(inner[name].Values()) + [v]
      ensures stored == old(stored)[name := Pushed(old(stored[name]), v)]
    {
      register.Push(v);
      stored := stored[name := register.State()];
      forall c | c in inner && c != name
        ensures inner[c].Valid() && stored[c] == inner[c].State()
      {
        assert inner[c] != register;
        assert inner[c].values == old(inner[c].values) && inner[c].lengths == old(inner[c].lengths);
        assert stored[c] == old(stored[c]);
      }
    }

    /**
     * `push`: `_` discards, `#`, `.` and `%` refuse, an ordinary name gets `v`
     * added to its newest batch.  For `+` and `*` the clipboard is read first:
     * a failing get is reported before anything changes; a clipboard that no
     * longer holds the cached batch is reported as a mismatch, the only change
     * being the default register `or_default` may have inserted; otherwise `v`
     * joins the cache and the clipboard is set to `v` in front of its old text.
     * The set is a separate backend call: when it fails, the error is reported
     * and the cache keeps `v`.
     */
    method Push(name: char, v: string) returns (r: Result<()>)
      requires Valid()
      modifies this, inner.Values
      ensures Valid() && lastSearchRegister == old(lastSearchRegister)
      ensures IsBlackHole(name) ==> r == Ok(()) && stored == old(stored) && provider == old(provider)
      ensures IsReadOnly(name) ==> r == Err(ReadOnly(name)) && stored == old(stored) && provider == old(provider)
      ensures !IsSpecial(name) ==>
        r == Ok(()) && provider == old(provider) && stored == old(stored)[name := Pushed(HistoryOf(old(stored), name), v)]
      ensures !IsSpecial(name) ==>
        forall e: Editor :: Read(name, e) == Some(Newest(HistoryOf(old(stored), name)) + [v])
      ensures IsClipboard(name) && !GetSucceeds(old(provider), ClipboardTypeOf(name)) ==>
        r == Err(ClipboardUnavailable) && stored == old(stored) && provider == old(provider)
      ensures IsClipboard(name) && GetSucceeds(old(provider), ClipboardTypeOf(name)) &&
              !Matches(Newest(HistoryOf(old(stored), name)), Slot(old(provider), ClipboardTypeOf(name))) ==>
        r == Err(ClipboardMismatch(name)) && provider == old(provider) &&
        stored == old(stored)[name := HistoryOf(old(stored), name)]
      ensures IsClipboard(name) && GetSucceeds(old(provider), ClipboardTypeOf(name)) &&
              Matches(Newest(HistoryOf(old(stored), name)), Slot(old(provider), ClipboardTypeOf(name))) ==>
        stored == old(stored)[name := Pushed(HistoryOf(old(stored), name), v)] &&
        provider == SetContents(old(provider),
          PushedClipboardText(v, Slot(old(provider), ClipboardTypeOf(name))), ClipboardTypeOf(name)) &&
        r == SetResult(old(provider), ClipboardTypeOf(name))
    {
      if IsBlackHole(name) {
        return Ok(());
      }
      if IsReadOnly(name) {
        return Err(ReadOnly(name));
      }
      if IsClipboard(name) {
        r := PushToClipboard(name, v);
      } else {
        PushRegister(name, v);
        r := Ok(());
      }
    }

    /** `entry(name).or_default().push(v)`: only the register under `name` changes. */
    method PushRegister(name: char, v: string)
      requires Valid()
      modifies this, inner.Values
      ensures Valid() && name in inner
      ensures inner[name].Values() == Newest(HistoryOf(old(stored), name)) + [v]
      ensures provider == old(provider) && lastSearchRegister == old(lastSearchRegister)
      ensures stored == old(stored)[name := Pushed(HistoryOf(old(stored), name), v)]
    {
      ghost var before := HistoryOf(stored, name);
      var register := Entry(name);
      PushAt(name, register, v);
      UpdateTwice(old(stored), name, before, Pushed(before, v));
    }

    /** The `+`/`*` branch of `push`. */
    method PushToClipboard(name: char, v: string) returns (r: Result<()>)
      requires Valid() && IsClipboard(name)
      modifies this, inner.Values
      ensures Valid() && lastSearchRegister == old(lastSearchRegister)
      ensures !GetSucceeds(old(provider), ClipboardTypeOf(name)) ==>
        r == Err(ClipboardUnavailable) && stored == old(stored) && provider == old(provider)
      ensures GetSucceeds(old(provider), ClipboardTypeOf(name)) &&
              !Matches(Newest(HistoryOf(old(stored), name)), Slot(old(provider), ClipboardTypeOf(name))) ==>
        r == Err(ClipboardMismatch(name)) && provider == old(provider) &&
        stored == old(stored)[name := HistoryOf(old(stored), name)]
      ensures GetSucceeds(old(provider), ClipboardTypeOf(name)) &&
              Matches(Newest(HistoryOf(old(stored), name)), Slot(old(provider), ClipboardTypeOf(name))) ==>
        stored == old(stored)[name := Pushed(HistoryOf(old(stored), name), v)] &&
        provider == SetContents(old(provider),
          PushedClipboardText(v, Slot(old(provider), ClipboardTypeOf(name))), ClipboardTypeOf(name)) &&
        r == SetResult(old(provider), ClipboardTypeOf(name))
    {
      var clipboardType := ClipboardTypeOf(name);
      var got := GetContents(provider, clipboardType);
      if got.Err? {
        return Err(got.error);
      }
      r := PushIfSaved(name, got.value, v);
    }

    /** The rest of the `+`/`*` branch of `push`, once the clipboard text `contents` is known. */
    method PushIfSaved(name: char, contents: string, v: string) returns (r: Result<()>)
      requires Valid() && IsClipboard(name)
      modifies this, inner.Values
      ensures Valid() && lastSearchRegister == old(lastSearchRegister)
      ensures !Matches(Newest(HistoryOf(old(stored), name)), contents) ==>
        r == Err(ClipboardMismatch(name)) && provider == old(provider) &&
        stored == old(stored)[name := HistoryOf(old(stored), name)]
      ensures Matches(Newest(HistoryOf(old(stored), name)), contents) ==>
        stored == old(stored)[name := Pushed(HistoryOf(old(stored), name), v)] &&
        provider == SetContents(old(provider), PushedClipboardText(v, contents), ClipboardTypeOf(name)) &&
        r == SetResult(old(provider), ClipboardTypeOf(name))
    {
      ghost var before := HistoryOf(stored, name);
      var register := Entry(name);
      assert register.Values() == Newest(before);
      var saved := ContentsAreSaved(register.Values(), contents);
      if !saved {
        return Err(ClipboardMismatch(name));
      }
      r := PushSaved(name, register, contents, v);
      UpdateTwice(old(stored), name, before, Pushed(before, v));
    }

    /** The cache takes `v` and the clipboard slot is set to `v` in front of `contents`. */
    method PushSaved(name: char, register: Register, contents: string, v: string) returns (r: Result<()>)
      requires Valid() && IsClipboard(name) && name in inner && inner[name] == register
      modifies this`stored, this`provider, register
      ensures Valid() && inner[name].Values() == old(inner[name].Values()) + [v]
      ensures stored == old(stored)[name := Pushed(old(stored[name]), v)]
      ensures provider == SetContents(old(provider), PushedClipboardText(v, contents), ClipboardTypeOf(name))
      ensures r == SetResult(old(provider), ClipboardTypeOf(name))
    {
      PushAt(name, register, v);
      var clipboardType := ClipboardTypeOf(name);
      var text := PushedClipboardText(v, contents);
      r := SetResult(provider, clipboardType);
      provider := SetContents(provider, text, clipboardType);
    }

    /** `clear_clipboard`: set the slot to empty text; a failure is only logged. */
    method ClearClipboard(t: ClipboardType)
      modifies this`provider
      ensures provider == SetContents(old(provider), "", t)
    {
      provider := SetContents(provider, "", t);
    }

    /**
     * `clear`: both clipboard slots are set to empty text where their backend
     * works, and every register, caches included, is dropped.
     */
    method Clear()
      requires Valid()
      modifies this
      ensures Valid() && stored == map[] && lastSearchRegister == old(lastSearchRegister)
      ensures provider == SetContents(SetContents(old(provider), "", Clipboard), "", Selection)
      ensures forall t: ClipboardType :: Slot(provider, t) == if !SetSucceeds(old(provider), t) then Slot(old(provider), t) else ""
    {
      ClearClipboard(Clipboard);
      ClearClipboard(Selection);
      inner := map[];
      stored := map[];
    }

    /**
     * `remove`: for `+` and `*` the clipboard slot is cleared, the cache is
     * dropped and the answer is true; `_`, `#`, `.` and `%` answer false and
     * change nothing; any other name is dropped and the answer says whether
     * it was there.
     */
    method Remove(name: char) returns (removed: bool)
      requires Valid()
      modifies this
      ensures Valid() && lastSearchRegister == old(lastSearchRegister)
      ensures IsClipboard(name) ==>
        removed && stored == old(stored) - {name} && provider == SetContents(old(provider), "", ClipboardTypeOf(name))
      ensures IsBlackHole(name) || IsReadOnly(name) ==> !removed && stored == old(stored) && provider == old(provider)
      ensures !IsSpecial(name) ==> removed == (name in old(stored)) && stored == old(stored) - {name} && provider == old(provider)
      ensures !IsSpecial(name) ==> forall e: Editor :: Read(name, e) == None
    {
      if IsClipboard(name) {
        ClearClipboard(ClipboardTypeOf(name));
        inner := inner - {name};
        stored := stored - {name};
        return true;
      }
      if IsBlackHole(name) || IsReadOnly(name) {
        return false;
      }
      removed := name in inner;
      inner := inner - {name};
      stored := stored - {name};
    }

    /**
     * `iter_preview`: one entry per stored register other than the `+`/`*`
     * caches, in no particular order, giving its name and preview; then the
     * six fixed entries for the special names.
     */
    method IterPreview() returns (previews: seq<(char, string)>)
      ensures |previews| >= |SPECIAL_PREVIEWS|
      ensures previews[|previews| - |SPECIAL_PREVIEWS|..] == SPECIAL_PREVIEWS
      ensures forall i | 0 <= i < |previews| - |SPECIAL_PREVIEWS| ::
        previews[i].0 in inner && !IsClipboard(previews[i].0) && previews[i].1 == Preview(inner[previews[i].0].State())
      ensures forall c | c in inner && !IsClipboard(c) ::
        (c, Preview(inner[c].State())) in previews[..|previews| - |SPECIAL_PREVIEWS|]
      ensures forall i, j | 0 <= i < j < |previews| - |SPECIAL_PREVIEWS| :: previews[i].0 != previews[j].0
    {
      var names := set c | c in inner && !IsClipboard(c);
      var remaining := names;
      var listed: seq<(char, string)> := [];
      while remaining != {}
        invariant remaining <= names
        invariant forall i | 0 <= i < |listed| ::
          listed[i].0 in names && listed[i].0 !in remaining && listed[i].1 == Preview(inner[listed[i].0].State())
        invariant forall c | c in names && c !in remaining :: (c, Preview(inner[c].State())) in listed
        invariant forall i, j | 0 <= i < j < |listed| :: listed[i].0 != listed[j].0
        decreases |remaining|
      {
        var c :| c in remaining;
        listed := listed + [(c, Preview(inner[c].State()))];
        remaining := remaining - {c};
      }
      previews := listed + SPECIAL_PREVIEWS;
      assert previews[..|previews| - |SPECIAL_PREVIEWS|] == listed;
    }
  }
}
