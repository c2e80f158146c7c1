/** The data layer: the in-memory state loaded from the data file and the four
    operations that change it. Each operation searches the list it touches,
    then pushes, unshifts or overwrites one element in place. */
module Db {
  import opened Common
  import opened Records

  /** The one error the data layer throws: the requested id is already taken. */
  datatype StoreError = IdInUse

  function AdminIdIs(id: string): Admin -> bool {
    (a: Admin) => a.id == id
  }

  function StaffIdIs(id: string): Staff -> bool {
    (s: Staff) => s.id == id
  }

  ghost predicate AdminIdsUnique(admins: seq<Admin>) {
    forall i, j :: 0 <= i < j < |admins| ==> admins[i].id != admins[j].id
  }

  ghost predicate StaffIdsUnique(staff: seq<Staff>) {
    forall i, j :: 0 <= i < j < |staff| ==> staff[i].id != staff[j].id
  }

  /** Responses are identified by recruitment, slot and staff member together. */
  datatype ResponseKey = ResponseKey(recruitmentId: string, slotId: string, staffId: string)

  function KeyOf(r: Response): ResponseKey {
    ResponseKey(r.recruitmentId, r.slotId, r.staffId)
  }

  function KeyIs(k: ResponseKey): Response -> bool {
    (r: Response) => KeyOf(r) == k
  }

  ghost predicate KeysUnique(rs: seq<Response>) {
    forall i, j :: 0 <= i < j < |rs| ==> KeyOf(rs[i]) != KeyOf(rs[j])
  }

  /** The response list after an upsert of `r`: the first entry with the same
      key is overwritten, or `r` is appended when there is none. */
  function Upserted(rs: seq<Response>, r: Response): seq<Response> {
    var i := FirstWhere(rs, KeyIs(KeyOf(r)));
    if i < |rs| then rs[i := r] else rs + [r]
  }

  /** Upserting under a key that is present replaces that entry where it
      stands: the length is the same and every other position is untouched. */
  lemma UpsertExisting(rs: seq<Response>, r: Response, i: nat)
    requires KeysUnique(rs)
    requires i < |rs| && KeyOf(rs[i]) == KeyOf(r)
    ensures |Upserted(rs, r)| == |rs|
    ensures Upserted(rs, r)[i] == r
    ensures forall j :: 0 <= j < |rs| && j != i ==> Upserted(rs, r)[j] == rs[j]
  {
    var k := FirstWhere(rs, KeyIs(KeyOf(r)));
    assert KeyIs(KeyOf(r))(rs[i]);
  }

  /** Upserting under a key that is absent appends exactly one entry. */
  lemma UpsertNew(rs: seq<Response>, r: Response)
    requires forall j :: 0 <= j < |rs| ==> KeyOf(rs[j]) != KeyOf(r)
    ensures |Upserted(rs, r)| == |rs| + 1
    ensures Upserted(rs, r)[..|rs|] == rs && Upserted(rs, r)[|rs|] == r
  {
  }

  /** At most one response per key before an upsert means at most one after. */
  lemma UpsertKeepsKeysUnique(rs: seq<Response>, r: Response)
    requires KeysUnique(rs)
    ensures KeysUnique(Upserted(rs, r))
  {
    var k := FirstWhere(rs, KeyIs(KeyOf(r)));
    var u := Upserted(rs, r);
    if k < |rs| {
      assert KeyIs(KeyOf(r))(rs[k]);
      forall i, j | 0 <= i < j < |u| ensures KeyOf(u[i]) != KeyOf(u[j]) {
        if i != k && j != k {
          assert u[i] == rs[i] && u[j] == rs[j];
        } else if i == k {
          assert KeyOf(rs[j]) != KeyOf(rs[k]);
        } else {
          assert KeyOf(rs[i]) != KeyOf(rs[k]);
        }
      }
    } else {
      forall i, j | 0 <= i < j < |u| ensures KeyOf(u[i]) != KeyOf(u[j]) {
        if j == |rs| {
          assert !KeyIs(KeyOf(r))(rs[i]);
        }
      }
    }
  }

  /** Submitting the same response twice leaves the list as one submission did. */
  lemma UpsertIdempotent(rs: seq<Response>, r: Response)
    ensures Upserted(Upserted(rs, r), r) == Upserted(rs, r)
  {
    var p := KeyIs(KeyOf(r));
    var k := FirstWhere(rs, p);
    var u := Upserted(rs, r);
    var k' := FirstWhere(u, p);
    assert p(u[k]);
  }

  /** A later submission under the same key overwrites the earlier one: the
      list ends as if only the later one had been submitted. */
  lemma UpsertSupersedes(rs: seq<Response>, r1: Response, r2: Response)
    requires KeyOf(r1) == KeyOf(r2)
    ensures Upserted(Upserted(rs, r1), r2) == Upserted(rs, r2)
  {
    var p := KeyIs(KeyOf(r2));
    assert p(Upserted(rs, r1)[FirstWhere(rs, p)]);
  }

  class Store {
    var admins: seq<Admin>
    var staff: seq<Staff>
    var recruitments: seq<Recruitment>
    var responses: seq<Response>

    /** The state as loaded from the data file. */
    constructor (d: Data)
      ensures Snapshot() == d
    {
      admins := d.admins;
      staff := d.staff;
      recruitments := d.recruitments;
      responses := d.responses;
    }

    /** `getData()`. */
    function Snapshot(): Data
      reads this
    {
      Data(admins, staff, recruitments, responses)
    }

    /** `addAdmin`: refuses an id some admin already has; otherwise appends the
        admin and returns it without its password. */
    method AddAdmin(id: string, name: string, password: string) returns (r: Result<AdminView, StoreError>)
      modifies this
      ensures r.Err? <==> exists i :: 0 <= i < |old(admins)| && old(admins)[i].id == id
      ensures r.Err? ==> r.error == IdInUse && admins == old(admins)
      ensures r.Ok? ==> r.value == AdminView(id, name) && admins == old(admins) + [Admin(id, name, password)]
      ensures staff == old(staff) && recruitments == old(recruitments) && responses == old(responses)
      ensures AdminIdsUnique(old(admins)) ==> AdminIdsUnique(admins)
    {
      var idx := FindIndex(admins, AdminIdIs(id));
      if idx >= 0 {
        return Err(IdInUse);
      }
      assert forall j :: 0 <= j < |admins| ==> !AdminIdIs(id)(admins[j]);
      admins := admins + [Admin(id, name, password)];
      r := Ok(AdminView(id, name));
    }

    /** `addStaff`: refuses an id some staff member already has; otherwise
        appends the record, with a missing group stored as '', and returns it
        without its password. */
    method AddStaff(id: string, name: string, password: string, group: Option<string>)
      returns (r: Result<StaffView, StoreError>)
      modifies this
      ensures r.Err? <==> exists i :: 0 <= i < |old(staff)| && old(staff)[i].id == id
      ensures r.Err? ==> r.error == IdInUse && staff == old(staff)
      ensures r.Ok? ==> var g := if Truthy(group) then group.value else "";
        && r.value == StaffView(id, name, g)
        && staff == old(staff) + [Staff(id, name, password, g)]
      ensures admins == old(admins) && recruitments == old(recruitments) && responses == old(responses)
      ensures StaffIdsUnique(old(staff)) ==> StaffIdsUnique(staff)
    {
      var idx := FindIndex(staff, StaffIdIs(id));
      if idx >= 0 {
        return Err(IdInUse);
      }
      assert forall j :: 0 <= j < |staff| ==> !StaffIdIs(id)(staff[j]);
      var g := OrElse(group, "");
      staff := staff + [Staff(id, name, password, g)];
      r := Ok(StaffView(id, name, g));
    }

    /** `createRecruitment`: the new recruitment is open, targets 'all' unless a
        group is given, and goes in front of the existing ones. The id and the
        creation time are supplied by the caller. */
    method CreateRecruitment(id: string, title: string, slots: seq<Slot>, targetGroup: Option<string>, createdAt: string)
      returns (rec: Recruitment)
      modifies this
      ensures rec.id == id && rec.title == title && rec.slots == slots && rec.createdAt == createdAt
      ensures rec.status == "open"
      ensures rec.targetGroup == if Truthy(targetGroup) then targetGroup.value else "all"
      ensures |recruitments| == |old(recruitments)| + 1 && recruitments[0] == rec
      ensures forall i :: 0 <= i < |old(recruitments)| ==> recruitments[i + 1] == old(recruitments)[i]
      ensures admins == old(admins) && staff == old(staff) && responses == old(responses)
    {
      rec := Recruitment(id, title, slots, OrElse(targetGroup, "all"), "open", createdAt);
      recruitments := [rec] + recruitments;
    }

    /** `upsertResponse`: the stored list becomes `Upserted` of the old one, and
        at most one response per key stays at most one. The update time is
        supplied by the caller. */
    method UpsertResponse(recruitmentId: string, slotId: string, staffId: string,
                          availability: string, comment: string, updatedAt: string)
      returns (resp: Response)
      modifies this
      ensures resp == Response(recruitmentId, slotId, staffId, availability, comment, updatedAt)
      ensures responses == Upserted(old(responses), resp)
      ensures KeysUnique(old(responses)) ==> KeysUnique(responses)
      ensures admins == old(admins) && staff == old(staff) && recruitments == old(recruitments)
    {
      resp := Response(recruitmentId, slotId, staffId, availability, comment, updatedAt);
      var idx := FindIndex(responses, KeyIs(KeyOf(resp)));
      if KeysUnique(responses) {
        UpsertKeepsKeysUnique(responses, resp);
      }
      if idx >= 0 {
        responses := responses[idx := resp];
      } else {
        responses := responses + [resp];
      }
    }
  }
}
