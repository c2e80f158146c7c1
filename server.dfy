/** The logic of the HTTP handlers: login lookup, recruitment creation and its
    defaults, per-slot aggregation of responses, the list of recruitments a
    staff member sees, and response submission. Sessions, status codes and
    JSON plumbing are reduced to parameters and a result tag. */
module Server {
  import opened Common
  import opened Records
  import Db

  /** How a handler refuses, by the HTTP status it answers with. */
  datatype HttpError =
    | BadRequest    // 400
    | Unauthorized  // 401
    | NotFound      // 404
    | ServerError   // 500: an error thrown by the data layer and not caught

  // ---------- POST /api/login ----------

  datatype Role = AdminRole | StaffRole

  /** What a successful login writes into the session. */
  datatype Session = Session(userId: string, role: Role, userName: string)

  function AdminWith(userId: Option<string>, password: Option<string>): Admin -> bool {
    (a: Admin) => userId == Some(a.id) && password == Some(a.password)
  }

  function StaffWith(userId: Option<string>, password: Option<string>): Staff -> bool {
    (s: Staff) => userId == Some(s.id) && password == Some(s.password)
  }

  /** The login lookup: the role picks the list; the first record whose id and
      password both equal the ones given opens a session as that record; no such record
      is 401; a role other than 'admin' or 'staff' is 400. */
  function Login(d: Data, userId: Option<string>, password: Option<string>, role: Option<string>)
    : (r: Result<Session, HttpError>)
    ensures role != Some("admin") && role != Some("staff") ==> r == Err(BadRequest)
    ensures role == Some("admin") ==>
      && (r.Ok? <==> exists i :: 0 <= i < |d.admins| && userId == Some(d.admins[i].id) && password == Some(d.admins[i].password))
      && (r.Err? ==> r.error == Unauthorized)
      && (r.Ok? ==> exists i :: 0 <= i < |d.admins| && userId == Some(d.admins[i].id) && password == Some(d.admins[i].password)
                       && r.value == Session(d.admins[i].id, AdminRole, d.admins[i].name))
      && (r.Ok? ==> var i := FirstWhere(d.admins, AdminWith(userId, password));
                    i < |d.admins| && r.value == Session(d.admins[i].id, AdminRole, d.admins[i].name))
    ensures role == Some("staff") ==>
      && (r.Ok? <==> exists i :: 0 <= i < |d.staff| && userId == Some(d.staff[i].id) && password == Some(d.staff[i].password))
      && (r.Err? ==> r.error == Unauthorized)
      && (r.Ok? ==> exists i :: 0 <= i < |d.staff| && userId == Some(d.staff[i].id) && password == Some(d.staff[i].password)
                       && r.value == Session(d.staff[i].id, StaffRole, d.staff[i].name))
      && (r.Ok? ==> var i := FirstWhere(d.staff, StaffWith(userId, password));
                    i < |d.staff| && r.value == Session(d.staff[i].id, StaffRole, d.staff[i].name))
  {
    if role == Some("admin") then
      var found := Find(d.admins, AdminWith(userId, password));
      if found.None? then
        assert forall i :: 0 <= i < |d.admins| ==> !AdminWith(userId, password)(d.admins[i]);
        Err(Unauthorized)
      else
        assert AdminWith(userId, password)(found.value);
        Ok(Session(found.value.id, AdminRole, found.value.name))
    else if role == Some("staff") then
      var found := Find(d.staff, StaffWith(userId, password));
      if found.None? then
        assert forall i :: 0 <= i < |d.staff| ==> !StaffWith(userId, password)(d.staff[i]);
        Err(Unauthorized)
      else
        assert StaffWith(userId, password)(found.value);
        Ok(Session(found.value.id, StaffRole, found.value.name))
    else
      Err(BadRequest)
  }

  // ---------- POST /api/staff ----------

  /** Adding a staff member: id, name and password must all be non-empty (400
      otherwise); a taken id makes the data layer throw, which surfaces as 500. */
  method PostStaff(store: Db.Store, id: Option<string>, name: Option<string>, password: Option<string>, group: Option<string>)
    returns (r: Result<StaffView, HttpError>)
    modifies store
    ensures !(Truthy(id) && Truthy(name) && Truthy(password)) ==> r == Err(BadRequest) && store.staff == old(store.staff)
    ensures r.Ok? ==> store.staff == old(store.staff) + [Staff(id.value, name.value, password.value, r.value.group)]
    ensures r.Ok? ==> r.value.group == if Truthy(group) then group.value else ""
    ensures Truthy(id) && Truthy(name) && Truthy(password) ==>
      (r.Ok? <==> forall i :: 0 <= i < |old(store.staff)| ==> old(store.staff)[i].id != id.value)
    ensures r.Ok? ==> r.value.id == id.value && r.value.name == name.value
    ensures Truthy(id) && Truthy(name) && Truthy(password) && r.Err? ==> r.error == ServerError
    ensures r.Err? ==> store.staff == old(store.staff)
    ensures store.admins == old(store.admins) && store.recruitments == old(store.recruitments)
    ensures store.responses == old(store.responses)
    ensures Db.StaffIdsUnique(old(store.staff)) ==> Db.StaffIdsUnique(store.staff)
  {
    if !(Truthy(id) && Truthy(name) && Truthy(password)) {
      return Err(BadRequest);
    }
    var added := store.AddStaff(id.value, name.value, password.value, Some(OrElse(group, "")));
    if added.Err? {
      return Err(ServerError);
    }
    r := Ok(added.value);
  }

  // ---------- POST /api/recruitments ----------

  /** One slot as the request body gives it; any field may be missing. */
  datatype SlotInput = SlotInput(
    date: Option<string>,
    start: Option<string>,
    end: Option<string>,
    needed: Option<int>,
    position: Option<string>)

  /** The `slots` field of the body: missing, present but not an array, or an array. */
  datatype SlotsField = Absent | NotAnArray | Items(items: seq<SlotInput>)

  datatype RecruitmentBody = RecruitmentBody(title: Option<string>, slots: SlotsField, targetGroup: Option<string>)

  /** What the handler passes to `createRecruitment`. */
  datatype NewRecruitment = NewRecruitment(title: string, slots: seq<Slot>, targetGroup: string)

  /** A stored slot built from a requested one: date and times are copied,
      `needed` falls back to 1 when missing or 0, `position` to ''. */
  function SlotOf(s: SlotInput, id: string): (slot: Slot)
    ensures slot.id == id && slot.date == s.date && slot.start == s.start && slot.end == s.end
    ensures slot.needed != 0
    ensures s.needed.Some? && s.needed.value != 0 ==> slot.needed == s.needed.value
    ensures s.needed.None? || s.needed.value == 0 ==> slot.needed == 1
    ensures slot.position == OrElse(s.position, "")
  {
    Slot(id, s.date, s.start, s.end,
         if s.needed.Some? && s.needed.value != 0 then s.needed.value else 1,
         OrElse(s.position, ""))
  }

  /** Validation and defaulting of a new recruitment: a missing or empty title,
      or a `slots` that is missing, not an array or empty, is 400. Slot `k`
      receives the id `slotId(k)`, standing for the k-th fresh UUID. */
  function CheckRecruitment(b: RecruitmentBody, slotId: nat -> string): (r: Result<NewRecruitment, HttpError>)
    ensures r.Err? <==> !Truthy(b.title) || !b.slots.Items? || b.slots.items == []
    ensures r.Err? ==> r.error == BadRequest
    ensures r.Ok? ==> && r.value.title == b.title.value
                      && r.value.targetGroup == OrElse(b.targetGroup, "all")
                      && |r.value.slots| == |b.slots.items|
                      && forall k :: 0 <= k < |r.value.slots| ==> r.value.slots[k] == SlotOf(b.slots.items[k], slotId(k))
  {
    if !Truthy(b.title) || !b.slots.Items? || b.slots.items == [] then
      Err(BadRequest)
    else
      var items := b.slots.items;
      Ok(NewRecruitment(b.title.value, seq(|items|, k requires 0 <= k < |items| => SlotOf(items[k], slotId(k))),
                        OrElse(b.targetGroup, "all")))
  }

  /** The recruitment-creation handler: validate, then create through the data
      layer, which puts the new open recruitment first. */
  method PostRecruitment(store: Db.Store, b: RecruitmentBody, recruitmentId: string, slotId: nat -> string, now: string)
    returns (r: Result<Recruitment, HttpError>)
    modifies store
    ensures r.Err? <==> CheckRecruitment(b, slotId).Err?
    ensures r.Err? ==> r.error == BadRequest && store.recruitments == old(store.recruitments)
    ensures r.Ok? ==> var nr := CheckRecruitment(b, slotId).value;
      && r.value == Recruitment(recruitmentId, nr.title, nr.slots, nr.targetGroup, "open", now)
      && store.recruitments == [r.value] + old(store.recruitments)
    ensures store.admins == old(store.admins) && store.staff == old(store.staff)
    ensures store.responses == old(store.responses)
  {
    var checked := CheckRecruitment(b, slotId);
    if checked.Err? {
      return Err(checked.error);
    }
    var nr := checked.value;
    var rec := store.CreateRecruitment(recruitmentId, nr.title, nr.slots, Some(nr.targetGroup), now);
    assert store.recruitments == [rec] + old(store.recruitments);
    r := Ok(rec);
  }

  // ---------- GET /api/recruitments/:id/aggregation ----------

  /** The three buckets a response can land in. */
  datatype Availability = O | Triangle | X

  /** 'o' and 'triangle' have buckets of their own; anything else counts as 'x'. */
  function Classify(availability: string): Availability {
    if availability == "o" then O
    else if availability == "triangle" then Triangle
    else X
  }

  datatype Entry = Entry(staffId: string, staffName: string, comment: string)

  datatype StaffRef = StaffRef(staffId: string, staffName: string)

  /** One slot of the aggregation: the slot itself, its three buckets and the
      staff who have not answered it. */
  datatype SlotSummary = SlotSummary(
    slot: Slot,
    o: seq<Entry>,
    triangle: seq<Entry>,
    x: seq<Entry>,
    noResponse: seq<StaffRef>)

  /** The name shown for a response whose staff member cannot be named. */
  const UnknownName: string := "不明"

  /** The bucket entry for a response: the name of the first staff member with
      the response's staff id, or `UnknownName` when there is none or the name
      is empty. */
  function EntryFor(staff: seq<Staff>, r: Response): (e: Entry)
    ensures e.staffId == r.staffId && e.comment == r.comment
    ensures (forall j :: 0 <= j < |staff| ==> staff[j].id != r.staffId) ==> e.staffName == UnknownName
    ensures var j := FirstWhere(staff, Db.StaffIdIs(r.staffId));
      j < |staff| ==> e.staffName == if staff[j].name != "" then staff[j].name else UnknownName
    ensures e.staffName != UnknownName ==>
      exists j :: 0 <= j < |staff| && staff[j].id == r.staffId && staff[j].name == e.staffName
  {
    var s := Find(staff, Db.StaffIdIs(r.staffId));
    if s.None? then
      assert forall j :: 0 <= j < |staff| ==> !Db.StaffIdIs(r.staffId)(staff[j]);
      Entry(r.staffId, UnknownName, r.comment)
    else
      assert Db.StaffIdIs(r.staffId)(s.value);
      Entry(r.staffId, if s.value.name != "" then s.value.name else UnknownName, r.comment)
  }

  /** The entries of the responses in `rs` that fall in bucket `b`, in the
      order of `rs`. */
  function Bucket(staff: seq<Staff>, rs: seq<Response>, b: Availability): seq<Entry> {
    if rs == [] then []
    else
      var last := rs[|rs| - 1];
      Bucket(staff, rs[..|rs| - 1], b) + (if Classify(last.availability) == b then [EntryFor(staff, last)] else [])
  }

  /** The forEach that pushes each response's entry into its bucket. */
  method SplitByAvailability(staff: seq<Staff>, rs: seq<Response>) returns (o: seq<Entry>, triangle: seq<Entry>, x: seq<Entry>)
    ensures o == Bucket(staff, rs, O)
    ensures triangle == Bucket(staff, rs, Triangle)
    ensures x == Bucket(staff, rs, X)
  {
    o, triangle, x := [], [], [];
    for i := 0 to |rs|
      invariant o == Bucket(staff, rs[..i], O)
      invariant triangle == Bucket(staff, rs[..i], Triangle)
      invariant x == Bucket(staff, rs[..i], X)
    {
      assert rs[..i + 1][..i] == rs[..i];
      var r := rs[i];
      var e := EntryFor(staff, r);
      if r.availability == "o" {
        o := o + [e];
      } else if r.availability == "triangle" {
        triangle := triangle + [e];
      } else {
        x := x + [e];
      }
    }
    assert rs[..|rs|] == rs;
  }

  /** Every response lands in exactly one bucket: the three sizes add up. */
  lemma {:induction false} BucketsPartition(staff: seq<Staff>, rs: seq<Response>)
    ensures |Bucket(staff, rs, O)| + |Bucket(staff, rs, Triangle)| + |Bucket(staff, rs, X)| == |rs|
  {
    if rs != [] {
      BucketsPartition(staff, rs[..|rs| - 1]);
    }
  }

  /** Bucketing a concatenation buckets each part and keeps them in order, so
      within a bucket responses keep their order. */
  lemma {:induction false} BucketAppend(staff: seq<Staff>, a: seq<Response>, c: seq<Response>, b: Availability)
    ensures Bucket(staff, a + c, b) == Bucket(staff, a, b) + Bucket(staff, c, b)
  {
    if c == [] {
      assert a + c == a;
    } else {
      assert (a + c)[..|a + c| - 1] == a + c[..|c| - 1];
      BucketAppend(staff, a, c[..|c| - 1], b);
    }
  }

  /** Each response's entry is in the bucket its availability names. */
  lemma BucketHas(staff: seq<Staff>, rs: seq<Response>, i: nat)
    requires i < |rs|
    ensures EntryFor(staff, rs[i]) in Bucket(staff, rs, Classify(rs[i].availability))
  {
    var b := Classify(rs[i].availability);
    assert rs == rs[..i] + [rs[i]] + rs[i + 1..];
    BucketAppend(staff, rs[..i] + [rs[i]], rs[i + 1..], b);
    BucketAppend(staff, rs[..i], [rs[i]], b);
    assert [rs[i]][..0] == [];
  }

  /** Whatever is in a bucket is the entry of a response with that availability. */
  lemma {:induction false} BucketOnlyHas(staff: seq<Staff>, rs: seq<Response>, b: Availability, e: Entry)
    requires e in Bucket(staff, rs, b)
    ensures exists i :: 0 <= i < |rs| && Classify(rs[i].availability) == b && e == EntryFor(staff, rs[i])
  {
    var front := rs[..|rs| - 1];
    if e in Bucket(staff, front, b) {
      BucketOnlyHas(staff, front, b, e);
      var i :| 0 <= i < |front| && Classify(front[i].availability) == b && e == EntryFor(staff, front[i]);
      assert rs[i] == front[i];
    }
  }

  /** `slotResponses.some(r => r.staffId === id)`. */
  predicate Responded(rs: seq<Response>, id: string) {
    exists j :: 0 <= j < |rs| && rs[j].staffId == id
  }

  /** The staff, in staff-list order, who have no response among `rs`. */
  function NoResponse(staff: seq<Staff>, rs: seq<Response>): (refs: seq<StaffRef>)
    ensures |refs| <= |staff|
  {
    if staff == [] then []
    else
      (if Responded(rs, staff[0].id) then [] else [StaffRef(staff[0].id, staff[0].name)])
      + NoResponse(staff[1..], rs)
  }

  /** A reference is listed as not having answered exactly when it is some
      staff member's id and name and that id has no response. */
  lemma {:induction false} NoResponseExactly(staff: seq<Staff>, rs: seq<Response>, ref: StaffRef)
    ensures ref in NoResponse(staff, rs) <==>
      exists j :: 0 <= j < |staff| && ref == StaffRef(staff[j].id, staff[j].name) && !Responded(rs, staff[j].id)
  {
    if staff != [] {
      NoResponseExactly(staff[1..], rs, ref);
      if exists j :: 0 <= j < |staff| && ref == StaffRef(staff[j].id, staff[j].name) && !Responded(rs, staff[j].id) {
        var j :| 0 <= j < |staff| && ref == StaffRef(staff[j].id, staff[j].name) && !Responded(rs, staff[j].id);
        if j > 0 {
          assert staff[1..][j - 1] == staff[j];
        }
      }
      if ref in NoResponse(staff[1..], rs) {
        var j :| 0 <= j < |staff[1..]| && ref == StaffRef(staff[1..][j].id, staff[1..][j].name) && !Responded(rs, staff[1..][j].id);
        assert staff[j + 1] == staff[1..][j];
      }
    }
  }

  /** The no-response list follows staff-list order. */
  lemma {:induction false} NoResponseAppend(a: seq<Staff>, c: seq<Staff>, rs: seq<Response>)
    ensures NoResponse(a + c, rs) == NoResponse(a, rs) + NoResponse(c, rs)
  {
    if a == [] {
      assert a + c == c;
    } else {
      assert (a + c)[1..] == a[1..] + c;
      NoResponseAppend(a[1..], c, rs);
    }
  }

  function RecruitmentIdIs(id: string): Recruitment -> bool {
    (r: Recruitment) => r.id == id
  }

  function InRecruitment(id: string): Response -> bool {
    (r: Response) => r.recruitmentId == id
  }

  function ForSlot(id: string): Response -> bool {
    (r: Response) => r.slotId == id
  }

  /** The responses to one slot of one recruitment, in stored order. */
  function SlotResponses(d: Data, recruitmentId: string, slot: Slot): seq<Response> {
    Filter(Filter(d.responses, InRecruitment(recruitmentId)), ForSlot(slot.id))
  }

  /** The aggregation entry of one slot. */
  function SummaryOf(d: Data, recruitmentId: string, slot: Slot): SlotSummary {
    var rs := SlotResponses(d, recruitmentId, slot);
    SlotSummary(slot, Bucket(d.staff, rs, O), Bucket(d.staff, rs, Triangle), Bucket(d.staff, rs, X),
                NoResponse(d.staff, rs))
  }

  /** The per-slot part of the aggregation handler. */
  method SummarizeSlot(d: Data, recruitmentId: string, slot: Slot) returns (summary: SlotSummary)
    ensures summary == SummaryOf(d, recruitmentId, slot)
  {
    var rs := SlotResponses(d, recruitmentId, slot);
    var o, triangle, x := SplitByAvailability(d.staff, rs);
    summary := SlotSummary(slot, o, triangle, x, NoResponse(d.staff, rs));
  }

  /** The aggregation handler: 404 when no recruitment has the id; otherwise the
      first recruitment with it and one summary per slot, in slot order. */
  method Aggregate(d: Data, recruitmentId: string) returns (r: Result<(Recruitment, seq<SlotSummary>), HttpError>)
    ensures r.Err? <==> forall i :: 0 <= i < |d.recruitments| ==> d.recruitments[i].id != recruitmentId
    ensures r.Err? ==> r.error == NotFound
    ensures r.Ok? ==> Find(d.recruitments, RecruitmentIdIs(recruitmentId)) == Some(r.value.0)
    ensures r.Ok? ==> r.value.0.id == recruitmentId
    ensures r.Ok? ==> |r.value.1| == |r.value.0.slots|
    ensures r.Ok? ==> forall k :: 0 <= k < |r.value.1| ==>
      r.value.1[k].slot == r.value.0.slots[k] && r.value.1[k] == SummaryOf(d, recruitmentId, r.value.0.slots[k])
  {
    var found := Find(d.recruitments, RecruitmentIdIs(recruitmentId));
    if found.None? {
      assert forall i :: 0 <= i < |d.recruitments| ==> !RecruitmentIdIs(recruitmentId)(d.recruitments[i]);
      return Err(NotFound);
    }
    var rec := found.value;
    assert RecruitmentIdIs(recruitmentId)(rec);
    var summaries: seq<SlotSummary> := [];
    for k := 0 to |rec.slots|
      invariant |summaries| == k
      invariant forall j :: 0 <= j < k ==> summaries[j] == SummaryOf(d, recruitmentId, rec.slots[j])
    {
      var s := SummarizeSlot(d, recruitmentId, rec.slots[k]);
      summaries := summaries + [s];
    }
    r := Ok((rec, summaries));
  }

  // ---------- GET /api/my-recruitments ----------

  datatype MyRecruitment = MyRecruitment(recruitment: Recruitment, myResponses: seq<Response>)

  function IsOpen(): Recruitment -> bool {
    (r: Recruitment) => r.status == "open"
  }

  /** Targeted at everyone, or at the caller's group when the caller is a staff
      member with a non-empty group. */
  function TargetsCaller(caller: Option<Staff>): Recruitment -> bool {
    (r: Recruitment) => r.targetGroup == "all" || (caller.Some? && caller.value.group != "" && r.targetGroup == caller.value.group)
  }

  function ByCaller(recruitmentId: string, staffId: string): Response -> bool {
    (r: Response) => r.recruitmentId == recruitmentId && r.staffId == staffId
  }

  /** The open recruitments targeted at the caller, in stored order: a
      recruitment is listed exactly when it is stored, open, and targeted at
      'all' or at the non-empty group of the staff member with the caller's id. */
  function Visible(d: Data, staffId: string): (recs: seq<Recruitment>)
    ensures |recs| <= |d.recruitments|
    ensures var caller := Find(d.staff, Db.StaffIdIs(staffId));
      forall rec :: rec in recs <==>
        && rec in d.recruitments
        && rec.status == "open"
        && (rec.targetGroup == "all" || (caller.Some? && caller.value.group != "" && rec.targetGroup == caller.value.group))
  {
    var caller := Find(d.staff, Db.StaffIdIs(staffId));
    Filter(Filter(d.recruitments, IsOpen()), TargetsCaller(caller))
  }

  /** The recruitments a logged-in user sees, each with exactly that user's own
      responses to it. */
  function MyRecruitments(d: Data, staffId: string): (mine: seq<MyRecruitment>)
    ensures |mine| == |Visible(d, staffId)|
    ensures forall k :: 0 <= k < |mine| ==> mine[k].recruitment == Visible(d, staffId)[k]
    ensures forall k, resp :: 0 <= k < |mine| ==>
      (resp in mine[k].myResponses <==>
         resp in d.responses && resp.recruitmentId == mine[k].recruitment.id && resp.staffId == staffId)
  {
    var recs := Visible(d, staffId);
    seq(|recs|, k requires 0 <= k < |recs| => MyRecruitment(recs[k], Filter(d.responses, ByCaller(recs[k].id, staffId))))
  }

  // ---------- POST /api/responses ----------

  datatype ResponseBody = ResponseBody(
    recruitmentId: Option<string>,
    slotId: Option<string>,
    availability: Option<string>,
    comment: Option<string>)

  predicate IsAvailability(a: string) {
    a == "o" || a == "triangle" || a == "x"
  }

  /** The fields a valid body yields for the upsert. */
  datatype ResponseFields = ResponseFields(recruitmentId: string, slotId: string, availability: string, comment: string)

  /** Response validation: the three ids must be present and non-empty and the
      availability one of 'o', 'triangle', 'x' (400 otherwise); a missing
      comment becomes ''. */
  function CheckResponse(b: ResponseBody): (r: Result<ResponseFields, HttpError>)
    ensures r.Ok? <==> Truthy(b.recruitmentId) && Truthy(b.slotId) && Truthy(b.availability) && IsAvailability(b.availability.value)
    ensures r.Err? ==> r.error == BadRequest
    ensures r.Ok? ==> && r.value.recruitmentId == b.recruitmentId.value
                      && r.value.slotId == b.slotId.value
                      && r.value.availability == b.availability.value
                      && r.value.comment == OrElse(b.comment, "")
  {
    if !Truthy(b.recruitmentId) || !Truthy(b.slotId) || !Truthy(b.availability) then Err(BadRequest)
    else if !IsAvailability(b.availability.value) then Err(BadRequest)
    else Ok(ResponseFields(b.recruitmentId.value, b.slotId.value, b.availability.value, OrElse(b.comment, "")))
  }

  /** The response-submission handler: a valid body is upserted under the
      session's user id; an invalid one changes nothing. */
  method SubmitResponse(store: Db.Store, b: ResponseBody, sessionUserId: string, now: string)
    returns (r: Result<Response, HttpError>)
    modifies store
    ensures r.Err? <==> CheckResponse(b).Err?
    ensures r.Err? ==> r.error == BadRequest && store.responses == old(store.responses)
    ensures r.Ok? ==> var f := CheckResponse(b).value;
      && r.value == Response(f.recruitmentId, f.slotId, sessionUserId, f.availability, f.comment, now)
      && store.responses == Db.Upserted(old(store.responses), r.value)
    ensures Db.KeysUnique(old(store.responses)) ==> Db.KeysUnique(store.responses)
    ensures store.admins == old(store.admins) && store.staff == old(store.staff)
    ensures store.recruitments == old(store.recruitments)
  {
    var checked := CheckResponse(b);
    if checked.Err? {
      return Err(checked.error);
    }
    var f := checked.value;
    var resp := store.UpsertResponse(f.recruitmentId, f.slotId, sessionUserId, f.availability, f.comment, now);
    r := Ok(resp);
  }
}
