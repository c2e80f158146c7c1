/** The records kept in the store: the four lists `admins`, `staff`,
    `recruitments` and `responses`. */
module Records {
  import opened Common

  datatype Admin = Admin(id: string, name: string, password: string)

  /** `group` is a free-text cohort label; the empty string means none. */
  datatype Staff = Staff(id: string, name: string, password: string, group: string)

  /** One work slot of a recruitment. `date`, `start` and `end` are copied from
      the request unchecked, so they may be missing. */
  datatype Slot = Slot(
    id: string,
    date: Option<string>,
    start: Option<string>,
    end: Option<string>,
    needed: int,
    position: string)

  datatype Recruitment = Recruitment(
    id: string,
    title: string,
    slots: seq<Slot>,
    targetGroup: string,
    status: string,
    createdAt: string)

  /** A staff member's availability for one slot: 'o', 'triangle' or 'x'. */
  datatype Response = Response(
    recruitmentId: string,
    slotId: string,
    staffId: string,
    availability: string,
    comment: string,
    updatedAt: string)

  /** The whole persisted state, as `getData()` returns it. */
  datatype Data = Data(
    admins: seq<Admin>,
    staff: seq<Staff>,
    recruitments: seq<Recruitment>,
    responses: seq<Response>)

  /** What `addAdmin` hands back: the record without its password. */
  datatype AdminView = AdminView(id: string, name: string)

  /** What `addStaff` hands back: the record without its password. */
  datatype StaffView = StaffView(id: string, name: string, group: string)
}
