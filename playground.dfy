/**
 * The student marketplace view (frontend/src/components/Student-Dashboard/Playground.jsx): how the
 * student and teacher records fetched from the API become the cards on screen, which cards each
 * tab shows, the status badge of a card, and which student is the one logged in.
 */
module Playground {
  import opened Wrappers
  import ArrayOps

  /** A teacher record as the API returns it (`_id`, `name`, `email`). */
  datatype Teacher = Teacher(id: string, name: string, email: string)

  /** A bid record: its own id, the bidding teacher's id and the amount. */
  datatype Bid = Bid(id: string, teacherId: string, amount: int)

  /** A bid on a card: the bid with the bidding teacher's name added. */
  datatype NamedBid = NamedBid(bid: Bid, teacherName: string)

  /** A bid in the logged-in student's own list: with the teacher's name and email added. */
  datatype ContactBid = ContactBid(bid: Bid, teacherName: string, teacherEmail: string)

  /** A student record as the API returns it; None for a field the record does not have. */
  datatype StudentRecord = StudentRecord(
    id: string, name: string, email: string,
    skills: Option<seq<string>>, achievements: Option<seq<string>>,
    yarBalance: Option<int>, basePrice: Option<int>,
    ownedBy: Option<string>, currentBids: Option<seq<Bid>>)

  /** A card of the marketplace. */
  datatype DisplayStudent = DisplayStudent(
    id: string, name: string, email: string, skills: seq<string>, achievements: seq<string>,
    currentBid: int, currentTeacher: Option<string>, basePrice: int, isAvailable: bool,
    currentBids: seq<NamedBid>, ownedBy: Option<string>, ownedByTeacher: Option<Teacher>)

  /** The badge of a card. */
  datatype Status = Acquired | Bidding | Available

  const UnknownTeacher: string := "Unknown Teacher"
  const UnknownEmail: string := "Unknown Email"
  const NotSpecified: seq<string> := ["Not specified"]
  const DefaultBasePrice: int := 30

  /** JavaScript truthiness of an optional string: present and not empty. */
  predicate Truthy(s: Option<string>) {
    s.Some? && s.value != ""
  }

  /** `x || fallback` for an optional string. */
  function OrElse(s: Option<string>, fallback: string): string {
    if Truthy(s) then s.value else fallback
  }

  // ---------------------------------------------------------------------------------------------
  // Teacher lookups

  /** `teachers.find(t => t._id === id)`. */
  function FindTeacher(ts: seq<Teacher>, id: string): (r: Option<Teacher>)
    ensures r.None? <==> forall j :: 0 <= j < |ts| ==> ts[j].id != id
    ensures r.Some? ==> r.value.id == id
    ensures r.Some? ==> exists k :: 0 <= k < |ts| && ts[k] == r.value && forall j :: 0 <= j < k ==> ts[j].id != id
  {
    ArrayOps.Find(ts, (t: Teacher) => t.id == id)
  }

  /** The name of a looked-up teacher, `teacher?.name`, as an optional string. */
  function NameOf(t: Option<Teacher>): Option<string> {
    if t.Some? then Some(t.value.name) else None
  }

  /**
   * `getTeacherNameById`: the name of the first teacher with the id, or 'Unknown Teacher' when
   * there is none or its name is empty.
   */
  function GetTeacherNameById(ts: seq<Teacher>, id: string): (r: string)
    ensures (forall j :: 0 <= j < |ts| ==> ts[j].id != id) ==> r == UnknownTeacher
    ensures forall k :: (0 <= k < |ts| && ts[k].id == id && (forall j :: 0 <= j < k ==> ts[j].id != id)) ==>
              r == if ts[k].name != "" then ts[k].name else UnknownTeacher
    ensures r == UnknownTeacher || exists k :: 0 <= k < |ts| && ts[k].id == id && ts[k].name == r
  {
    OrElse(NameOf(FindTeacher(ts, id)), UnknownTeacher)
  }

  // ---------------------------------------------------------------------------------------------
  // Bid enrichment

  /** The bids of a card (lines 143-149): each bid, in order, with its teacher's name. */
  function NameBids(ts: seq<Teacher>, bids: seq<Bid>): (r: seq<NamedBid>)
    ensures |r| == |bids|
    ensures forall i :: 0 <= i < |bids| ==>
              r[i].bid == bids[i] && r[i].teacherName == GetTeacherNameById(ts, bids[i].teacherId)
  {
    seq(|bids|, i requires 0 <= i < |bids| => NamedBid(bids[i], GetTeacherNameById(ts, bids[i].teacherId)))
  }

  /** The logged-in student's bids (lines 125-132): each bid with its teacher's name and email. */
  function ContactBids(ts: seq<Teacher>, bids: seq<Bid>): (r: seq<ContactBid>)
    ensures |r| == |bids|
    ensures forall i :: 0 <= i < |bids| ==>
              && r[i].bid == bids[i]
              && r[i].teacherName == GetTeacherNameById(ts, bids[i].teacherId)
              && (FindTeacher(ts, bids[i].teacherId).None? ==> r[i].teacherEmail == UnknownEmail)
              && (FindTeacher(ts, bids[i].teacherId).Some? ==>
                    r[i].teacherEmail == if FindTeacher(ts, bids[i].teacherId).value.email != ""
                                         then FindTeacher(ts, bids[i].teacherId).value.email else UnknownEmail)
  {
    seq(|bids|, i requires 0 <= i < |bids| =>
      var t := FindTeacher(ts, bids[i].teacherId);
      ContactBid(bids[i], OrElse(NameOf(t), UnknownTeacher),
                 OrElse(if t.Some? then Some(t.value.email) else None, UnknownEmail)))
  }

  // ---------------------------------------------------------------------------------------------
  // Cards

  /** One card of `processAllStudents`, with the defaults for missing fields. */
  function ProcessStudent(ts: seq<Teacher>, s: StudentRecord): (r: DisplayStudent)
    ensures r.id == s.id && r.name == s.name && r.email == s.email && r.ownedBy == s.ownedBy
    ensures r.skills == if s.skills.Some? then s.skills.value else NotSpecified
    ensures r.achievements == if s.achievements.Some? then s.achievements.value else NotSpecified
    ensures r.isAvailable <==> !Truthy(s.ownedBy)
    ensures (s.basePrice.None? || s.basePrice.value == 0) ==> r.basePrice == DefaultBasePrice
    ensures s.basePrice.Some? && s.basePrice.value != 0 ==> r.basePrice == s.basePrice.value
    ensures s.yarBalance.None? ==> r.currentBid == 0
    ensures s.yarBalance.Some? ==> r.currentBid == s.yarBalance.value
    // the holder is shown only when an owner is set and some teacher has its id
    ensures (!Truthy(s.ownedBy) || forall j :: 0 <= j < |ts| ==> ts[j].id != s.ownedBy.value) ==>
              r.currentTeacher.None? && r.ownedByTeacher.None?
    ensures Truthy(s.ownedBy) ==> r.ownedByTeacher == FindTeacher(ts, s.ownedBy.value)
    // an owner found among the teachers (the first with its id) is shown by name, unless the name is empty
    ensures Truthy(s.ownedBy) && FindTeacher(ts, s.ownedBy.value).Some? ==>
              r.currentTeacher == if FindTeacher(ts, s.ownedBy.value).value.name != ""
                                  then Some(FindTeacher(ts, s.ownedBy.value).value.name) else None
    ensures r.currentTeacher.Some? ==>
              Truthy(s.ownedBy) && exists k :: 0 <= k < |ts| && ts[k].id == s.ownedBy.value && ts[k].name == r.currentTeacher.value
    ensures r.currentBids == NameBids(ts, if s.currentBids.Some? then s.currentBids.value else [])
  {
    var owner := if Truthy(s.ownedBy) then FindTeacher(ts, s.ownedBy.value) else None;
    var name := OrElse(NameOf(owner), "");
    DisplayStudent(
      s.id, s.name, s.email,
      if s.skills.Some? then s.skills.value else NotSpecified,
      if s.achievements.Some? then s.achievements.value else NotSpecified,
      if s.yarBalance.Some? then s.yarBalance.value else 0,
      if name != "" then Some(name) else None,
      if s.basePrice.Some? && s.basePrice.value != 0 then s.basePrice.value else DefaultBasePrice,
      !Truthy(s.ownedBy),
      NameBids(ts, if s.currentBids.Some? then s.currentBids.value else []),
      s.ownedBy,
      owner)
  }

  /** `processAllStudents`: one card per student record, in the same order. */
  function ProcessAllStudents(ts: seq<Teacher>, ss: seq<StudentRecord>): (r: seq<DisplayStudent>)
    ensures |r| == |ss|
    ensures forall i :: 0 <= i < |ss| ==> r[i] == ProcessStudent(ts, ss[i])
  {
    seq(|ss|, i requires 0 <= i < |ss| => ProcessStudent(ts, ss[i]))
  }

  // ---------------------------------------------------------------------------------------------
  // Tabs and badges

  /** Whether a card belongs to a tab: 'bidding', 'acquired', or any other name for all cards. */
  predicate InTab(tab: string, d: DisplayStudent) {
    if tab == "bidding" then |d.currentBids| > 0 && !Truthy(d.ownedBy)
    else if tab == "acquired" then Truthy(d.ownedBy)
    else true
  }

  /** `filteredStudents`: the cards of the active tab. */
  function FilterByTab(tab: string, ds: seq<DisplayStudent>): (r: seq<DisplayStudent>)
    ensures ArrayOps.IsSubsequence(r, ds)
    ensures forall d :: multiset(r)[d] == if InTab(tab, d) then multiset(ds)[d] else 0
    ensures tab != "bidding" && tab != "acquired" ==> r == ds
  {
    ArrayOps.Filter(ds, (d: DisplayStudent) => InTab(tab, d))
  }

  /** The badge of a card; it is 'Bidding' exactly for the cards of the 'bidding' tab. */
  function StatusOf(d: DisplayStudent): (r: Status)
    ensures r == Acquired <==> InTab("acquired", d)
    ensures r == Bidding <==> InTab("bidding", d)
    ensures r == Available <==> !Truthy(d.ownedBy) && d.currentBids == []
  {
    if Truthy(d.ownedBy) then Acquired
    else if |d.currentBids| > 0 then Bidding
    else Available
  }

  /** Each card shown on the 'acquired' and 'bidding' tabs carries that tab's badge, and only those. */
  lemma TabsMatchBadges(ds: seq<DisplayStudent>, d: DisplayStudent)
    requires d in ds
    ensures d in FilterByTab("acquired", ds) <==> StatusOf(d) == Acquired
    ensures d in FilterByTab("bidding", ds) <==> StatusOf(d) == Bidding
  {
    assert multiset(FilterByTab("acquired", ds))[d] == if InTab("acquired", d) then multiset(ds)[d] else 0;
    assert multiset(FilterByTab("bidding", ds))[d] == if InTab("bidding", d) then multiset(ds)[d] else 0;
  }

  // ---------------------------------------------------------------------------------------------
  // The logged-in student

  /** `studentsData.find(student => student.email === email)`. */
  function FindStudentByEmail(ss: seq<StudentRecord>, email: string): (r: Option<StudentRecord>)
    ensures r.None? <==> forall j :: 0 <= j < |ss| ==> ss[j].email != email
    ensures r.Some? ==> r.value.email == email
    ensures r.Some? ==> exists k :: 0 <= k < |ss| && ss[k] == r.value && forall j :: 0 <= j < k ==> ss[j].email != email
  {
    ArrayOps.Find(ss, (s: StudentRecord) => s.email == email)
  }

  /**
   * The logged-in student: looked up by the email passed in the navigation state, then, only if
   * that found nothing, by the email stored in the browser (either is None when absent).
   */
  function CurrentStudent(ss: seq<StudentRecord>, navEmail: Option<string>, storedEmail: Option<string>): (r: Option<StudentRecord>)
    ensures r.Some? ==> r.value in ss
    ensures r.Some? ==> (Truthy(navEmail) && r.value.email == navEmail.value) ||
                        (Truthy(storedEmail) && r.value.email == storedEmail.value)
    // the navigation state wins whenever it names a student
    ensures Truthy(navEmail) && (exists j :: 0 <= j < |ss| && ss[j].email == navEmail.value) ==>
              r == FindStudentByEmail(ss, navEmail.value)
    // the stored email is consulted only when the navigation state found nothing
    ensures (!Truthy(navEmail) || forall j :: 0 <= j < |ss| ==> ss[j].email != navEmail.value) ==>
              r == (if Truthy(storedEmail) then FindStudentByEmail(ss, storedEmail.value) else None)
  {
    var fromNav := if Truthy(navEmail) then FindStudentByEmail(ss, navEmail.value) else None;
    if fromNav.Some? then fromNav
    else if Truthy(storedEmail) then FindStudentByEmail(ss, storedEmail.value)
    else None
  }
}
