/**
 * The external clipboard, seen only through its get/set interface.  The
 * backends themselves are foreign; here a provider is two text slots, one per
 * clipboard kind, plus the kinds whose get currently fails and the kinds
 * whose set currently fails (the two are separate backend calls).
 */
module Clipboard {
  import opened Wrappers

  datatype ClipboardType = Clipboard | Selection

  datatype Provider = Provider(
    clipboard: string, selection: string, getFailing: set<ClipboardType>, setFailing: set<ClipboardType>)

  /** The text currently held in slot `t`. */
  function Slot(p: Provider, t: ClipboardType): string {
    match t
    case Clipboard => p.clipboard
    case Selection => p.selection
  }

  /** Whether `get_contents` on slot `t` succeeds. */
  predicate GetSucceeds(p: Provider, t: ClipboardType) {
    t !in p.getFailing
  }

  /** `get_contents`: the slot's text, or an error when that backend fails. */
  function GetContents(p: Provider, t: ClipboardType): (r: Result<string>)
    ensures r.Ok? <==> GetSucceeds(p, t)
    ensures r.Ok? ==> r.value == Slot(p, t)
  {
    if !GetSucceeds(p, t) then Err(ClipboardUnavailable) else Ok(Slot(p, t))
  }

  /** Whether `set_contents` on slot `t` succeeds. */
  predicate SetSucceeds(p: Provider, t: ClipboardType) {
    t !in p.setFailing
  }

  /** The provider after `set_contents(text, t)`: a failing backend changes nothing. */
  function SetContents(p: Provider, text: string, t: ClipboardType): (q: Provider)
    ensures q.getFailing == p.getFailing && q.setFailing == p.setFailing
    ensures Slot(q, t) == if SetSucceeds(p, t) then text else Slot(p, t)
    ensures forall u :: u != t ==> Slot(q, u) == Slot(p, u)
  {
    if !SetSucceeds(p, t) then p
    else match t
      case Clipboard => p.(clipboard := text)
      case Selection => p.(selection := text)
  }

  /** A get can work while the set on the same kind fails. */
  lemma GetWorksWhileSetFails()
    ensures var p := Provider("a", "", {}, {Clipboard});
      GetContents(p, Clipboard) == Ok("a") && SetResult(p, Clipboard).Err? &&
      SetContents(p, "b", Clipboard) == p
  {
  }

  /** The Result a caller of `set_contents` sees. */
  function SetResult(p: Provider, t: ClipboardType): (r: Result<()>)
    ensures r.Ok? <==> SetSucceeds(p, t)
  {
    if SetSucceeds(p, t) then Ok(()) else Err(ClipboardUnavailable)
  }
}
