/**
  The channel registry (channels.json): an ordered list of destination
  identifiers with set-like insertion and deletion, and the normalisation
  the /addchannel and /removechannel commands apply to a typed target.
*/
module Registry {
  import opened Text

  /** The reply of `add_channel` / `remove_channel` and the list it leaves behind. */
  datatype Change = Change(ok: bool, channels: seq<string>)

  predicate NoDuplicates(chs: seq<string>) {
    forall i, j :: 0 <= i < j < |chs| ==> chs[i] != chs[j]
  }

  /** Position of the first occurrence of `id` in `chs`. */
  function IndexOf(chs: seq<string>, id: string): (i: nat)
    requires id in chs
    ensures i < |chs| && chs[i] == id
    ensures forall j :: 0 <= j < i ==> chs[j] != id
  {
    if chs[0] == id then 0 else 1 + IndexOf(chs[1..], id)
  }

  /** `add_channel`: append `id` unless it is already registered. */
  function AddChannel(chs: seq<string>, id: string): (r: Change)
    ensures r.ok <==> id !in chs
    ensures id in r.channels
    ensures |r.channels| == |chs| + (if r.ok then 1 else 0)
    ensures r.channels[..|chs|] == chs
    ensures !r.ok ==> r.channels == chs
  {
    if id in chs then Change(false, chs) else Change(true, chs + [id])
  }

  /** `remove_channel`: `list.remove`, which deletes the first occurrence only. */
  function RemoveChannel(chs: seq<string>, id: string): (r: Change)
    ensures r.ok <==> id in chs
    ensures |r.channels| == if id in chs then |chs| - 1 else |chs|
  {
    if id !in chs then Change(false, chs)
    else
      var i := IndexOf(chs, id);
      Change(true, chs[..i] + chs[i + 1..])
  }

  /** A registry without duplicates stays so after an add, and grows by exactly the new id. */
  lemma AddKeepsSet(chs: seq<string>, id: string)
    requires NoDuplicates(chs)
    ensures NoDuplicates(AddChannel(chs, id).channels)
    ensures forall c :: c in AddChannel(chs, id).channels <==> c in chs || c == id
  {
  }

  /** Registering the same id twice answers true, then false (the list grows once). */
  lemma AddTwice(chs: seq<string>, id: string)
    requires id !in chs
    ensures AddChannel(chs, id).ok
    ensures !AddChannel(AddChannel(chs, id).channels, id).ok
    ensures AddChannel(AddChannel(chs, id).channels, id).channels == chs + [id]
  {
  }

  /**
    Removal: false and no change when `id` is absent; otherwise exactly the
    first occurrence goes and the other channels keep their order.
  */
  lemma RemoveSpec(chs: seq<string>, id: string)
    ensures id !in chs ==> RemoveChannel(chs, id) == Change(false, chs)
    ensures id in chs ==>
      exists i :: 0 <= i < |chs| && chs[i] == id && id !in chs[..i]
        && RemoveChannel(chs, id) == Change(true, chs[..i] + chs[i + 1..])
    ensures multiset(RemoveChannel(chs, id).channels) == multiset(chs) - multiset{id}
  {
    if id in chs {
      var i := IndexOf(chs, id);
      assert chs == chs[..i] + [id] + chs[i + 1..];
      assert id !in chs[..i];
    }
  }

  /** Removal never adds anything and takes away at most one copy of `id`. */
  lemma RemoveShrinks(chs: seq<string>, id: string)
    ensures multiset(RemoveChannel(chs, id).channels) <= multiset(chs)
    ensures forall c :: c in chs && c !in RemoveChannel(chs, id).channels ==> c == id
  {
    RemoveSpec(chs, id);
    var r := RemoveChannel(chs, id).channels;
    forall c | c in chs && c !in r ensures c == id {
      assert multiset(chs)[c] > 0 && multiset(r)[c] == 0;
    }
  }

  /** Deleting position `i`: the entries before it stay put, the ones after it move down by one. */
  lemma DeleteAtIndex(chs: seq<string>, i: nat)
    requires i < |chs|
    ensures |chs[..i] + chs[i + 1..]| == |chs| - 1
    ensures forall k :: 0 <= k < |chs| - 1 ==>
      (chs[..i] + chs[i + 1..])[k] == if k < i then chs[k] else chs[k + 1]
  {
  }

  lemma DeleteAtMember(chs: seq<string>, i: nat, c: string)
    requires NoDuplicates(chs) && i < |chs|
    ensures c in chs[..i] + chs[i + 1..] <==> c in chs && c != chs[i]
  {
    var r := chs[..i] + chs[i + 1..];
    DeleteAtIndex(chs, i);
    if c in r {
      var k :| 0 <= k < |r| && r[k] == c;
      if k < i { assert chs[k] == c; } else { assert chs[k + 1] == c; }
    }
    if c in chs && c != chs[i] {
      var k :| 0 <= k < |chs| && chs[k] == c;
      if k < i { assert r[k] == c; } else { assert r[k - 1] == c; }
    }
  }

  /** On a registry without duplicates, removal really deletes the id and keeps the set property. */
  lemma RemoveKeepsSet(chs: seq<string>, id: string)
    requires NoDuplicates(chs)
    ensures NoDuplicates(RemoveChannel(chs, id).channels)
    ensures forall c :: c in RemoveChannel(chs, id).channels <==> c in chs && c != id
  {
    if id in chs {
      var i := IndexOf(chs, id);
      var r := chs[..i] + chs[i + 1..];
      assert RemoveChannel(chs, id).channels == r;
      DeleteAtIndex(chs, i);
      forall c ensures c in r <==> c in chs && c != id {
        DeleteAtMember(chs, i, c);
      }
    }
  }

  /** Adding a new id and removing it again gives back the original registry. */
  lemma AddThenRemove(chs: seq<string>, id: string)
    requires id !in chs
    ensures RemoveChannel(AddChannel(chs, id).channels, id) == Change(true, chs)
  {
    var r := chs + [id];
    assert forall j :: 0 <= j < |chs| ==> r[j] == chs[j];
    assert IndexOf(r, id) == |chs|;
    assert r[..|chs|] == chs;
  }

  /** Removing an id that is not (or no longer) registered is a no-op reported as false. */
  lemma RemoveIdempotent(chs: seq<string>, id: string)
    requires NoDuplicates(chs)
    ensures !RemoveChannel(RemoveChannel(chs, id).channels, id).ok
    ensures RemoveChannel(RemoveChannel(chs, id).channels, id).channels == RemoveChannel(chs, id).channels
  {
    RemoveKeepsSet(chs, id);
  }

  // ---------------------------------------------------------------------------
  // Command targets
  // ---------------------------------------------------------------------------

  /** A numeric chat id as typed: any number of dashes, then characters `isdigit` accepts. */
  predicate IsNumericId(t: string) {
    IsDigitText(DropLeading(t, '-'))
  }

  /**
    The target fix-up of /addchannel and /removechannel: prefix `@` unless the
    text already starts with `@` or is a numeric id.
  */
  function NormalizeTarget(t: string): (r: string)
    ensures StartsWith(r, '@') || IsNumericId(r)
    ensures r == t <==> StartsWith(t, '@') || IsNumericId(t)
    ensures r != t ==> r == "@" + t
  {
    if !StartsWith(t, '@') && !IsNumericId(t) then "@" + t else t
  }

  /** Normalising twice is normalising once. */
  lemma NormalizeIdempotent(t: string)
    ensures NormalizeTarget(NormalizeTarget(t)) == NormalizeTarget(t)
  {
  }

  lemma DropDashesOfNegative(n: nat)
    ensures DropLeading("-" + ShowNat(n), '-') == ShowNat(n)
  {
    var s := "-" + ShowNat(n);
    assert s[1..] == ShowNat(n);
  }

  /** The text of any integer chat id (what a forwarded message yields) passes through unchanged. */
  lemma NormalizeChatId(n: int)
    ensures NormalizeTarget(ShowInt(n)) == ShowInt(n)
  {
    if n < 0 {
      DropDashesOfNegative(-n);
      NumeralIsDigitText(ShowNat(-n));
    } else {
      NumeralIsDigitText(ShowNat(n));
    }
  }

  /**
    `isdigit` also accepts the superscript digits, so a typed `²` or `-³` is
    kept as a numeric id although `int` cannot read it.
  */
  lemma SuperscriptTargetKept()
    ensures var t := [0xB2 as char];
            && NormalizeTarget(t) == t
            && NormalizeTarget("-" + t) == "-" + t
            && ParseInt(t).None?
  {
    var t := [0xB2 as char];
    assert IsDigitLike(t[0]) && !IsDigit(t[0]);
    assert DropLeading(t, '-') == t;
    assert IsNumericId(t);
    var u := "-" + t;
    assert u[1..] == t;
    assert DropLeading(u, '-') == DropLeading(t, '-');
    assert IsNumericId(u);
    StripNoEdgeSpace(t);
    assert !DigitGroups(t);
  }

  /** What an /addchannel or /removechannel command sees: a forwarded chat id, or typed arguments. */
  datatype Request = Forwarded(chatId: int) | Typed(args: seq<string>)

  /** The registry answer of a command; `Usage` when there was nothing to act on. */
  datatype Reply = Usage | Answer(ok: bool, target: string)

  /** `handle_addchannel` without the admin check and the reply texts. */
  function AddCommand(chs: seq<string>, req: Request): (r: (Reply, seq<string>))
    ensures r.0.Usage? <==> req.Typed? && |req.args| == 0
    ensures r.0.Usage? ==> r.1 == chs
    ensures r.0.Answer? ==> r.1 == AddChannel(chs, r.0.target).channels && r.0.ok == (r.0.target !in chs)
    ensures req.Forwarded? ==> r.0 == Answer(ShowInt(req.chatId) !in chs, ShowInt(req.chatId))
    ensures req.Typed? && |req.args| > 0 ==> r.0.target == NormalizeTarget(req.args[0])
  {
    match req
    case Forwarded(id) =>
      var target := ShowInt(id);
      var c := AddChannel(chs, target);
      (Answer(c.ok, target), c.channels)
    case Typed(args) =>
      if |args| == 0 then (Usage, chs)
      else
        var target := NormalizeTarget(args[0]);
        var c := AddChannel(chs, target);
        (Answer(c.ok, target), c.channels)
  }

  /** `handle_removechannel` without the admin check and the reply texts. */
  function RemoveCommand(chs: seq<string>, args: seq<string>): (r: (Reply, seq<string>))
    ensures r.0.Usage? <==> |args| == 0
    ensures r.0.Usage? ==> r.1 == chs
    ensures r.0.Answer? ==> r.0.target == NormalizeTarget(args[0]) && r.0.ok == (r.0.target in chs)
    ensures r.0.Answer? ==> r.1 == RemoveChannel(chs, r.0.target).channels
  {
    if |args| == 0 then (Usage, chs)
    else
      var target := NormalizeTarget(args[0]);
      var c := RemoveChannel(chs, target);
      (Answer(c.ok, target), c.channels)
  }
}
