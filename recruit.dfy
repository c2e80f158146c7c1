/** The admin page for opening a recruitment: the group choices offered, the
    list of slot rows in the form, and the payload built when it is sent. */
module Recruit {
  import opened Common
  import opened Text

  // ---------- Group choices ----------

  /** The distinct non-empty groups among the staff records, in the order in
      which each first appears: what spreading a `Set` built from the truthy
      `group` fields yields. A missing group is `None`. */
  function Groups(gs: seq<Option<string>>): (r: seq<string>)
    ensures forall i, j :: 0 <= i < j < |r| ==> r[i] != r[j]
    ensures forall x :: x in r <==> x != "" && Some(x) in gs
  {
    if gs == [] then []
    else
      var init, last := gs[..|gs| - 1], gs[|gs| - 1];
      assert gs == init + [last];
      var g := Groups(init);
      if Truthy(last) && last.value !in g then g + [last.value] else g
  }

  function IsGroup(x: string): Option<string> -> bool {
    (o: Option<string>) => o == Some(x)
  }

  lemma {:induction false} FirstWhereAppend<T>(a: seq<T>, b: seq<T>, p: T -> bool)
    ensures FirstWhere(a + b, p) == if FirstWhere(a, p) < |a| then FirstWhere(a, p) else |a| + FirstWhere(b, p)
  {
    if a == [] {
      assert a + b == b;
    } else {
      assert (a + b)[1..] == a[1..] + b;
      FirstWhereAppend(a[1..], b, p);
    }
  }

  /** Each listed group is first seen in `gs` before the groups listed after it. */
  ghost predicate InFirstSeenOrder(gs: seq<Option<string>>) {
    forall i, j :: 0 <= i < j < |Groups(gs)| ==>
      FirstWhere(gs, IsGroup(Groups(gs)[i])) < FirstWhere(gs, IsGroup(Groups(gs)[j])) < |gs|
  }

  /** The groups are listed in the order of their first appearance. */
  lemma {:induction false} GroupsInFirstSeenOrder(gs: seq<Option<string>>)
    ensures InFirstSeenOrder(gs)
  {
    if gs != [] {
      GroupsInFirstSeenOrder(gs[..|gs| - 1]);
      FirstSeenStep(gs);
    }
  }

  /** The inductive step of `GroupsInFirstSeenOrder`, on one more record. */
  lemma FirstSeenStep(gs: seq<Option<string>>)
    requires gs != [] && InFirstSeenOrder(gs[..|gs| - 1])
    ensures InFirstSeenOrder(gs)
  {
    var init, last := gs[..|gs| - 1], gs[|gs| - 1];
    assert gs == init + [last];
    var g, r := Groups(init), Groups(gs);
    assert r == if Truthy(last) && last.value !in g then g + [last.value] else g;
    forall i, j | 0 <= i < j < |r|
      ensures FirstWhere(gs, IsGroup(r[i])) < FirstWhere(gs, IsGroup(r[j])) < |gs|
    {
      assert r[i] == g[i] && g[i] in g;
      FirstSeenEarlier(init, last, g[i]);
      if j < |g| {
        assert r[j] == g[j] && g[j] in g;
        FirstSeenEarlier(init, last, g[j]);
      } else {
        FirstSeenLast(init, last);
      }
    }
  }

  /** A group already seen keeps its first position when a record is added. */
  lemma FirstSeenEarlier(init: seq<Option<string>>, last: Option<string>, x: string)
    requires x in Groups(init)
    ensures FirstWhere(init + [last], IsGroup(x)) == FirstWhere(init, IsGroup(x)) < |init|
  {
    FirstWhereAppend(init, [last], IsGroup(x));
    var k :| 0 <= k < |init| && init[k] == Some(x);
    assert IsGroup(x)(init[k]);
  }

  /** A group first seen in the added record is first seen at its position. */
  lemma FirstSeenLast(init: seq<Option<string>>, last: Option<string>)
    requires Truthy(last) && last.value !in Groups(init)
    ensures FirstWhere(init + [last], IsGroup(last.value)) == |init|
  {
    var x := last.value;
    FirstWhereAppend(init, [last], IsGroup(x));
    assert forall k :: 0 <= k < |init| ==> !IsGroup(x)(init[k]);
  }

  // ---------- The slot rows ----------

  /** The rows of the slot list, by the number `addSlot` gave each, and the
      module-level counter those numbers come from. */
  class SlotList {
    var slotCount: nat
    var ids: seq<nat>

    /** Rows appear in the order they were added, so their numbers increase,
        and none is above the counter. */
    ghost predicate Valid()
      reads this
    {
      Increasing(ids) && forall i :: 0 <= i < |ids| ==> ids[i] <= slotCount
    }

    /** The page before its first `addSlot`: no rows, the counter at 0. */
    constructor ()
      ensures Valid() && slotCount == 0 && ids == []
    {
      slotCount := 0;
      ids := [];
    }

    /** `addSlot`: the counter is incremented first and the new row carries
        the new value, which no earlier row has. */
    method AddSlot() returns (id: nat)
      requires Valid()
      modifies this
      ensures Valid()
      ensures id == old(slotCount) + 1 == slotCount
      ensures ids == old(ids) + [id]
      ensures id !in old(ids)
    {
      slotCount := slotCount + 1;
      id := slotCount;
      ids := ids + [id];
    }

    /** The remove button of row `id`: the row goes only when it is not the
        last one left; otherwise nothing changes and the user is told. */
    method RemoveSlot(id: nat) returns (removed: bool)
      requires Valid() && id in ids
      modifies this
      ensures Valid()
      ensures removed <==> |old(ids)| > 1
      ensures |ids| >= 1
      ensures removed ==> |ids| == |old(ids)| - 1 && forall x :: x in ids <==> x in old(ids) && x != id
      ensures !removed ==> ids == old(ids)
      ensures slotCount == old(slotCount)
    {
      if |ids| > 1 {
        var k := FindIndex(ids, (n: nat) => n == id);
        var rest := ids[..k] + ids[k + 1..];
        DropAt(ids, k);
        ids := rest;
        removed := true;
      } else {
        removed := false;
      }
    }
  }

  ghost predicate Increasing(xs: seq<nat>) {
    forall i, j :: 0 <= i < j < |xs| ==> xs[i] < xs[j]
  }

  /** Dropping the element at `k` from an increasing list of numbers drops
      exactly that number and keeps the rest increasing. */
  lemma DropAt(xs: seq<nat>, k: nat)
    requires Increasing(xs) && k < |xs|
    ensures |xs[..k] + xs[k + 1..]| == |xs| - 1
    ensures Increasing(xs[..k] + xs[k + 1..])
    ensures forall x :: x in xs[..k] + xs[k + 1..] <==> x in xs && x != xs[k]
  {
    var rest := xs[..k] + xs[k + 1..];
    assert forall i :: 0 <= i < |rest| ==> rest[i] == if i < k then xs[i] else xs[i + 1];
    forall x | x in xs && x != xs[k] ensures x in rest {
      var i :| 0 <= i < |xs| && xs[i] == x;
      assert rest[if i < k then i else i - 1] == x;
    }
  }

  // ---------- Sending the form ----------

  /** The raw values of one slot row, as its inputs hold them. */
  datatype SlotFields = SlotFields(date: string, start: string, end: string, needed: string, position: string)

  /** One slot of the request body. */
  datatype SlotPayload = SlotPayload(date: string, start: string, end: string, needed: int, position: string)

  /** The request body: the trimmed title, the slots in row order and the
      chosen target group. */
  datatype Payload = Payload(title: string, slots: seq<SlotPayload>, targetGroup: string)

  /** `parseInt(value) || 1`: an unparsable or zero count becomes 1; any other
      number parsed from the field is kept, negative ones included. */
  function Needed(raw: string): (n: int)
    ensures n != 0
    ensures ParseInt(raw).None? ==> n == 1
    ensures ParseInt(raw).Some? && ParseInt(raw).value != 0 ==> n == ParseInt(raw).value
    ensures ParseInt(raw) == Some(0) ==> n == 1
  {
    match ParseInt(raw)
    case None => 1
    case Some(v) => if v == 0 then 1 else v
  }

  /** A positive count typed in decimal is sent as that count; a typed 0 is
      sent as 1. */
  lemma NeededOfDecimal(n: nat)
    ensures Needed(Decimal(n)) == if n == 0 then 1 else n
  {
    ParseIntOfDecimal(n);
  }

  predicate Incomplete(f: SlotFields) {
    f.date == "" || f.start == "" || f.end == ""
  }

  /** One slot of the body: date and times as typed, the count read with
      `parseInt(...) || 1`, and the position trimmed. */
  function SlotOf(f: SlotFields): (p: SlotPayload)
    ensures p.date == f.date && p.start == f.start && p.end == f.end
    ensures p.needed != 0
    ensures ParseInt(f.needed).Some? && ParseInt(f.needed).value != 0 ==> p.needed == ParseInt(f.needed).value
    ensures ParseInt(f.needed).None? || ParseInt(f.needed) == Some(0) ==> p.needed == 1
    ensures p.position == Trim(f.position)
    ensures p.position == [] <==> forall k :: 0 <= k < |f.position| ==> IsJsWhitespace(f.position[k])
    ensures p.position != [] ==> !IsJsWhitespace(p.position[0]) && !IsJsWhitespace(p.position[|p.position| - 1])
  {
    SlotPayload(f.date, f.start, f.end, Needed(f.needed), Trim(f.position))
  }

  /** `submitRecruitment` up to the request: the rows are read in order and
      the first one missing a date or a time stops it with nothing sent.
      Each slot copies its row's date and times, trims the position and
      reads the count with `Needed`. The title is only trimmed; it is not
      checked here. */
  method SubmitRecruitment(title: string, targetGroup: string, rows: seq<SlotFields>)
    returns (r: Option<Payload>)
    ensures r.None? <==> exists i :: 0 <= i < |rows| && Incomplete(rows[i])
    ensures r.Some? ==> r.value.title == Trim(title) && r.value.targetGroup == targetGroup
    ensures r.Some? ==> |r.value.slots| == |rows|
    ensures r.Some? ==> forall i :: 0 <= i < |rows| ==> r.value.slots[i] == SlotOf(rows[i])
  {
    var t := Trim(title);
    var slots := MapOrStop(rows, Incomplete, SlotOf);
    if slots.None? {
      return None;
    }
    r := Some(Payload(t, slots.value, targetGroup));
  }
}
