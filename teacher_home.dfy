/**
 * The teacher dashboard's bidding step (frontend/src/components/Teacher-Dashboard/TeacherHome.jsx).
 *
 * The dashboard keeps a list of students and a list of teachers in component state. A bid by the
 * logged-in teacher is checked (valid amount, known teacher, higher than the student's current bid,
 * affordable) and, if accepted, the student moves from its previous holder to the bidder, the
 * bidder's purse is debited and the student card records the new bid. The new lists are computed
 * from the old ones (`PlaceBid`) and then committed (`Dashboard.HandleBid`).
 */
module TeacherHome {
  import opened Wrappers
  import ArrayOps

  /** A student card on the dashboard; `currentTeacher` is None for JavaScript's `null`. */
  datatype Student = Student(id: int, name: string, skills: seq<string>, currentBid: int,
                             currentTeacher: Option<string>, basePrice: int)

  /** A teacher: the coins left to spend and the ids of the students the teacher holds. */
  datatype Teacher = Teacher(id: int, name: string, purse: int, currentBids: seq<int>)

  /** The two lists of the dashboard's state. */
  datatype Market = Market(students: seq<Student>, teachers: seq<Teacher>)

  /**
   * Why `handleBid` turned a bid down. Every case but StudentMissing is one of its alerts;
   * StudentMissing stands for the TypeError the handler throws, with no alert and no state set.
   */
  datatype BidError =
    | InvalidAmount             // the parsed amount is NaN, zero or negative
    | TeacherNotFound           // no teacher is named like the logged-in teacher
    | StudentMissing            // no student has the id: reading its currentBid throws
    | BidTooLow(currentBid: int)
    | InsufficientFunds

  /** The dashboard's initial students, as hard-coded in the component. */
  const InitialStudents: seq<Student> := [
    Student(1, "Ankit Bari", ["React", "Node.js", "Blockchain"], 50, Some("Dr. Tatwadarshi Nagarhalli"), 30),
    Student(2, "Yash Kerkar", ["Python", "AI/ML", "Solidity"], 0, None, 40),
    Student(3, "Rahul Singh", ["Java", "Spring Boot", "Web3"], 35, Some("Mrs. Sejal D Mello"), 25),
    Student(4, "Saurabh Vishwakarma", ["JavaScript", "React", "Smart Contracts"], 0, None, 35),
    Student(5, "Harsh Tripathi", ["Vue.js", "MongoDB", "DApps"], 45, Some("Ms. Neha Raut"), 30)
  ]

  /** The dashboard's initial teachers. */
  const InitialTeachers: seq<Teacher> := [
    Teacher(1, "Dr. Tatwadarshi Nagarhalli", 200, [1]),
    Teacher(2, "Mrs. Sejal D Mello", 150, [3]),
    Teacher(3, "Ms. Neha Raut", 180, [5]),
    Teacher(4, "Prof. Raunak Joshi", 220, [])
  ]

  /** The simulated logged-in teacher. */
  const LoggedInTeacher: string := "Prof. Raunak Joshi"

  // ---------------------------------------------------------------------------------------------
  // Invariants of the dashboard state

  ghost predicate DistinctTeacherNames(ts: seq<Teacher>) {
    forall i, j :: 0 <= i < j < |ts| ==> ts[i].name != ts[j].name
  }

  ghost predicate DistinctTeacherIds(ts: seq<Teacher>) {
    forall i, j :: 0 <= i < j < |ts| ==> ts[i].id != ts[j].id
  }

  ghost predicate DistinctStudentIds(ss: seq<Student>) {
    forall i, j :: 0 <= i < j < |ss| ==> ss[i].id != ss[j].id
  }

  /** No purse is negative. */
  ghost predicate Solvent(ts: seq<Teacher>) {
    forall i :: 0 <= i < |ts| ==> ts[i].purse >= 0
  }

  /** Every student id occurs at most once over all the teachers' `currentBids` lists. */
  ghost predicate ExclusiveHoldings(ts: seq<Teacher>) {
    && (forall i, x :: 0 <= i < |ts| ==> multiset(ts[i].currentBids)[x] <= 1)
    && (forall i, j, x :: 0 <= i < |ts| && 0 <= j < |ts| && i != j && x in ts[i].currentBids ==>
          x !in ts[j].currentBids)
  }

  ghost predicate ValidMarket(m: Market) {
    && DistinctTeacherNames(m.teachers)
    && DistinctTeacherIds(m.teachers)
    && DistinctStudentIds(m.students)
    && Solvent(m.teachers)
    && ExclusiveHoldings(m.teachers)
  }

  // ---------------------------------------------------------------------------------------------
  // Lookups

  /** `students.find(s => s.id === studentId)`. */
  function FindStudent(ss: seq<Student>, id: int): (r: Option<Student>)
    ensures r.None? <==> forall j :: 0 <= j < |ss| ==> ss[j].id != id
    ensures r.Some? ==> r.value.id == id
    ensures r.Some? ==> exists k :: 0 <= k < |ss| && ss[k] == r.value && forall j :: 0 <= j < k ==> ss[j].id != id
  {
    ArrayOps.Find(ss, (s: Student) => s.id == id)
  }

  /** `getTeacherByName`, also the lookup of the bidder: the first teacher with that name. */
  function GetTeacherByName(ts: seq<Teacher>, name: string): (r: Option<Teacher>)
    ensures r.None? <==> forall j :: 0 <= j < |ts| ==> ts[j].name != name
    ensures r.Some? ==> r.value.name == name
    ensures r.Some? ==> exists k :: 0 <= k < |ts| && ts[k] == r.value && forall j :: 0 <= j < k ==> ts[j].name != name
  {
    ArrayOps.Find(ts, (t: Teacher) => t.name == name)
  }

  /** `teachers.find(t => t.currentBids.includes(studentId))`: the previous holder. */
  function FindHolder(ts: seq<Teacher>, sid: int): (r: Option<Teacher>)
    ensures r.None? <==> forall j :: 0 <= j < |ts| ==> sid !in ts[j].currentBids
    ensures r.Some? ==> sid in r.value.currentBids
    ensures r.Some? ==> exists k :: 0 <= k < |ts| && ts[k] == r.value && forall j :: 0 <= j < k ==> sid !in ts[j].currentBids
  {
    ArrayOps.Find(ts, (t: Teacher) => sid in t.currentBids)
  }

  /** `ids.filter(id => id !== sid)`. */
  function Without(ids: seq<int>, sid: int): (r: seq<int>)
    ensures sid !in r
    ensures forall x :: x != sid ==> multiset(r)[x] == multiset(ids)[x]
    ensures ArrayOps.IsSubsequence(r, ids)
  {
    var r := ArrayOps.Filter(ids, (id: int) => id != sid);
    assert multiset(r)[sid] == 0;
    r
  }

  // ---------------------------------------------------------------------------------------------
  // The three `map` steps of a successful bid

  /** Step 1, per teacher: the teacher whose id is the previous holder's drops the student. */
  function Released(t: Teacher, holderId: Option<int>, sid: int): Teacher {
    if holderId == Some(t.id) then t.(currentBids := Without(t.currentBids, sid)) else t
  }

  /** Step 2, per teacher: the teacher named like the bidder pays and takes the student. */
  function Charged(t: Teacher, bidder: string, amount: int, sid: int): Teacher {
    if t.name == bidder then t.(purse := t.purse - amount, currentBids := t.currentBids + [sid]) else t
  }

  /** Step 3, per student: the card with the student's id records the bid. */
  function Recorded(s: Student, sid: int, amount: int, bidder: string): Student {
    if s.id == sid then s.(currentBid := amount, currentTeacher := Some(bidder)) else s
  }

  /** The teachers after both steps: the holder's id, if any, is the one found before step 1. */
  function TransferTeachers(ts: seq<Teacher>, bidder: string, amount: int, sid: int): seq<Teacher> {
    var holder := FindHolder(ts, sid);
    var holderId := if holder.Some? then Some(holder.value.id) else None;
    seq(|ts|, i requires 0 <= i < |ts| => Charged(Released(ts[i], holderId, sid), bidder, amount, sid))
  }

  function RecordStudents(ss: seq<Student>, sid: int, amount: int, bidder: string): seq<Student> {
    seq(|ss|, i requires 0 <= i < |ss| => Recorded(ss[i], sid, amount, bidder))
  }

  // ---------------------------------------------------------------------------------------------
  // The bid

  /**
   * `handleBid(studentId)` for the logged-in teacher `bidder` and the parsed input `input`
   * (None when `parseInt` gives NaN): the new lists, or the alert that rejected the bid.
   */
  function PlaceBid(m: Market, bidder: string, sid: int, input: Option<int>): (r: Result<Market, BidError>)
    // the checks, in the order the handler makes them
    ensures (input.None? || input.value <= 0) ==> r == Err(InvalidAmount)
    ensures input.Some? && input.value > 0 && GetTeacherByName(m.teachers, bidder).None? ==>
              r == Err(TeacherNotFound)
    ensures (input.Some? && input.value > 0 && GetTeacherByName(m.teachers, bidder).Some? &&
             FindStudent(m.students, sid).None?) ==> r == Err(StudentMissing)
    ensures (input.Some? && GetTeacherByName(m.teachers, bidder).Some? && FindStudent(m.students, sid).Some? &&
             0 < input.value <= FindStudent(m.students, sid).value.currentBid) ==>
              r == Err(BidTooLow(FindStudent(m.students, sid).value.currentBid))
    ensures (input.Some? && GetTeacherByName(m.teachers, bidder).Some? && FindStudent(m.students, sid).Some? &&
             input.value > 0 && input.value > FindStudent(m.students, sid).value.currentBid &&
             input.value > GetTeacherByName(m.teachers, bidder).value.purse) ==> r == Err(InsufficientFunds)
    // acceptance: all checks pass (none of them mentions the base price)
    ensures r.Ok? <==>
              && input.Some? && input.value > 0
              && GetTeacherByName(m.teachers, bidder).Some?
              && FindStudent(m.students, sid).Some?
              && input.value > FindStudent(m.students, sid).value.currentBid
              && input.value <= GetTeacherByName(m.teachers, bidder).value.purse
    // on success the lists keep their lengths and order, and only the listed fields change
    ensures r.Ok? ==> |r.value.students| == |m.students| && |r.value.teachers| == |m.teachers|
    ensures r.Ok? ==> forall i :: 0 <= i < |m.students| ==>
              r.value.students[i] == if m.students[i].id == sid
                                     then m.students[i].(currentBid := input.value, currentTeacher := Some(bidder))
                                     else m.students[i]
    ensures r.Ok? ==> forall i :: 0 <= i < |m.teachers| ==>
              && r.value.teachers[i].id == m.teachers[i].id
              && r.value.teachers[i].name == m.teachers[i].name
              && r.value.teachers[i].purse == if m.teachers[i].name == bidder
                                             then m.teachers[i].purse - input.value
                                             else m.teachers[i].purse
  {
    if input.None? || input.value <= 0 then Err(InvalidAmount)
    else
      var amount := input.value;
      match GetTeacherByName(m.teachers, bidder)
      case None => Err(TeacherNotFound)
      case Some(teacher) =>
        match FindStudent(m.students, sid)
        case None => Err(StudentMissing)
        case Some(student) =>
          if amount <= student.currentBid then Err(BidTooLow(student.currentBid))
          else if amount > teacher.purse then Err(InsufficientFunds)
          else Ok(Market(RecordStudents(m.students, sid, amount, bidder),
                         TransferTeachers(m.teachers, bidder, amount, sid)))
  }

  // ---------------------------------------------------------------------------------------------
  // What an accepted bid does to the invariants

  /** In a valid market only one teacher's list can hold a given student. */
  lemma HolderIsUnique(ts: seq<Teacher>, sid: int, i: int, j: int)
    requires ExclusiveHoldings(ts)
    requires 0 <= i < |ts| && 0 <= j < |ts|
    requires sid in ts[i].currentBids && sid in ts[j].currentBids
    ensures i == j
  {
  }

  /** The bidder is the unique teacher with the bidder's name. */
  lemma BidderIndex(ts: seq<Teacher>, bidder: string) returns (b: nat)
    requires DistinctTeacherNames(ts)
    requires GetTeacherByName(ts, bidder).Some?
    ensures b < |ts| && ts[b] == GetTeacherByName(ts, bidder).value
    ensures forall j :: 0 <= j < |ts| ==> (ts[j].name == bidder <==> j == b)
  {
    var t := GetTeacherByName(ts, bidder).value;
    b :| 0 <= b < |ts| && ts[b] == t && forall j :: 0 <= j < b ==> ts[j].name != bidder;
  }

  /**
   * After the two teacher steps the student appears exactly once in the bidder's list and in no
   * other list, whether or not the bidder already held the student; every other student id keeps
   * its multiplicity in every list.
   */
  lemma TransferMovesHolding(ts: seq<Teacher>, bidder: string, amount: int, sid: int)
    requires DistinctTeacherIds(ts) && ExclusiveHoldings(ts)
    ensures var ts' := TransferTeachers(ts, bidder, amount, sid);
      forall i :: 0 <= i < |ts'| ==>
        && (ts'[i].name == bidder ==> multiset(ts'[i].currentBids)[sid] == 1)
        && (ts'[i].name != bidder ==> sid !in ts'[i].currentBids)
        && (forall x :: x != sid ==> multiset(ts'[i].currentBids)[x] == multiset(ts[i].currentBids)[x])
  {
    var ts' := TransferTeachers(ts, bidder, amount, sid);
    var holder := FindHolder(ts, sid);
    var holderId := if holder.Some? then Some(holder.value.id) else None;
    forall i | 0 <= i < |ts'|
      ensures ts'[i].name == bidder ==> multiset(ts'[i].currentBids)[sid] == 1
      ensures ts'[i].name != bidder ==> sid !in ts'[i].currentBids
      ensures forall x :: x != sid ==> multiset(ts'[i].currentBids)[x] == multiset(ts[i].currentBids)[x]
    {
      var r := Released(ts[i], holderId, sid);
      assert ts'[i] == Charged(r, bidder, amount, sid);
      // the released list no longer holds the student: only the holder did, and it dropped it
      if sid in ts[i].currentBids {
        var k :| 0 <= k < |ts| && ts[k] == holder.value && forall j :: 0 <= j < k ==> sid !in ts[j].currentBids;
        HolderIsUnique(ts, sid, i, k);
      }
      assert sid !in r.currentBids;
      if ts[i].name == bidder {
        assert ts'[i].currentBids == r.currentBids + [sid];
      }
    }
  }

  /** The teacher steps change neither names nor ids, and debit only the bidder. */
  lemma TransferKeepsIdentities(ts: seq<Teacher>, bidder: string, amount: int, sid: int)
    ensures var ts' := TransferTeachers(ts, bidder, amount, sid);
      |ts'| == |ts| &&
      forall i :: 0 <= i < |ts| ==>
        && ts'[i].id == ts[i].id && ts'[i].name == ts[i].name
        && ts'[i].purse == if ts[i].name == bidder then ts[i].purse - amount else ts[i].purse
  {
  }

  /** No purse goes negative when the bidder is the one teacher of that name and can pay. */
  lemma TransferKeepsSolvent(ts: seq<Teacher>, bidder: string, amount: int, sid: int)
    requires DistinctTeacherNames(ts) && Solvent(ts)
    requires GetTeacherByName(ts, bidder).Some? && amount <= GetTeacherByName(ts, bidder).value.purse
    ensures Solvent(TransferTeachers(ts, bidder, amount, sid))
  {
    var ts' := TransferTeachers(ts, bidder, amount, sid);
    var b := BidderIndex(ts, bidder);
    TransferKeepsIdentities(ts, bidder, amount, sid);
    forall i | 0 <= i < |ts'| ensures ts'[i].purse >= 0 {
      if ts[i].name == bidder { assert i == b; }
    }
  }

  /** Every student id still occurs at most once over all lists. */
  lemma TransferKeepsExclusive(ts: seq<Teacher>, bidder: string, amount: int, sid: int)
    requires DistinctTeacherNames(ts) && DistinctTeacherIds(ts) && ExclusiveHoldings(ts)
    requires GetTeacherByName(ts, bidder).Some?
    ensures ExclusiveHoldings(TransferTeachers(ts, bidder, amount, sid))
  {
    var ts' := TransferTeachers(ts, bidder, amount, sid);
    var b := BidderIndex(ts, bidder);
    TransferKeepsIdentities(ts, bidder, amount, sid);
    TransferMovesHolding(ts, bidder, amount, sid);
    forall i, x | 0 <= i < |ts'| ensures multiset(ts'[i].currentBids)[x] <= 1 {
      if x != sid { assert multiset(ts[i].currentBids)[x] <= 1; }
    }
    forall i, j, x | 0 <= i < |ts'| && 0 <= j < |ts'| && i != j && x in ts'[i].currentBids
      ensures x !in ts'[j].currentBids
    {
      if x == sid {
        assert ts'[i].name == bidder;
        assert i == b;
      } else {
        assert multiset(ts'[i].currentBids)[x] == multiset(ts[i].currentBids)[x];
        assert multiset(ts'[j].currentBids)[x] == multiset(ts[j].currentBids)[x];
        assert x in ts[i].currentBids;
      }
    }
  }

  /**
   * An accepted bid keeps every invariant of the dashboard state, and leaves the student in the
   * bidder's list, exactly once, and in no other.
   */
  lemma PlaceBidPreservesValid(m: Market, bidder: string, sid: int, input: Option<int>)
    requires ValidMarket(m)
    requires PlaceBid(m, bidder, sid, input).Ok?
    ensures ValidMarket(PlaceBid(m, bidder, sid, input).value)
    ensures var ts' := PlaceBid(m, bidder, sid, input).value.teachers;
      forall i :: 0 <= i < |ts'| ==>
        if ts'[i].name == bidder then multiset(ts'[i].currentBids)[sid] == 1 else sid !in ts'[i].currentBids
  {
    var amount := input.value;
    assert PlaceBid(m, bidder, sid, input).value ==
      Market(RecordStudents(m.students, sid, amount, bidder), TransferTeachers(m.teachers, bidder, amount, sid));
    TransferKeepsIdentities(m.teachers, bidder, amount, sid);
    TransferKeepsSolvent(m.teachers, bidder, amount, sid);
    TransferKeepsExclusive(m.teachers, bidder, amount, sid);
    TransferMovesHolding(m.teachers, bidder, amount, sid);
  }

  /** An accepted bid changes no other student's holder: every other id keeps its multiplicity in every list. */
  lemma PlaceBidKeepsOtherHoldings(m: Market, bidder: string, sid: int, input: Option<int>)
    requires DistinctTeacherIds(m.teachers) && ExclusiveHoldings(m.teachers)
    requires PlaceBid(m, bidder, sid, input).Ok?
    ensures var ts' := PlaceBid(m, bidder, sid, input).value.teachers;
      forall i, x :: 0 <= i < |ts'| && x != sid ==>
        multiset(ts'[i].currentBids)[x] == multiset(m.teachers[i].currentBids)[x]
  {
    var amount := input.value;
    assert PlaceBid(m, bidder, sid, input).value.teachers == TransferTeachers(m.teachers, bidder, amount, sid);
    TransferMovesHolding(m.teachers, bidder, amount, sid);
  }

  /**
   * On success the student's bid strictly rises and the student is held by the bidder; no teacher
   * but the bidder has a different purse, so the previous holder gets nothing back.
   */
  lemma {:induction false} PlaceBidRaisesAndDebits(m: Market, bidder: string, sid: int, input: Option<int>)
    requires ValidMarket(m)
    requires PlaceBid(m, bidder, sid, input).Ok?
    ensures var m' := PlaceBid(m, bidder, sid, input).value;
      && (forall i :: 0 <= i < |m.students| && m.students[i].id == sid ==>
            m'.students[i].currentBid > m.students[i].currentBid &&
            m'.students[i].currentTeacher == Some(bidder))
      && (exists b :: 0 <= b < |m.teachers| && m.teachers[b].name == bidder &&
            0 <= m'.teachers[b].purse == m.teachers[b].purse - input.value &&
            forall j :: 0 <= j < |m.teachers| && j != b ==> m'.teachers[j].purse == m.teachers[j].purse)
  {
    var m' := PlaceBid(m, bidder, sid, input).value;
    var s := FindStudent(m.students, sid).value;
    var k :| 0 <= k < |m.students| && m.students[k] == s && forall j :: 0 <= j < k ==> m.students[j].id != sid;
    forall i | 0 <= i < |m.students| && m.students[i].id == sid
      ensures m'.students[i].currentBid > m.students[i].currentBid
    {
      if i != k { assert false; }
    }
    var b := BidderIndex(m.teachers, bidder);
    assert 0 <= m'.teachers[b].purse;
  }

  /**
   * Why the invariants ask for distinct names: the purse check reads the first teacher with the
   * bidder's name, but the debit applies to every teacher of that name. Two teachers called "A"
   * with purses 100 and 10: a bid of 50 passes the check and leaves the second at -40, and both
   * lists now hold the student.
   */
  lemma SharedNameOverdraws()
    ensures var m := Market([Student(1, "S", [], 0, None, 30)],
                            [Teacher(1, "A", 100, []), Teacher(2, "A", 10, [])]);
      && PlaceBid(m, "A", 1, Some(50)).Ok?
      && PlaceBid(m, "A", 1, Some(50)).value.teachers == [Teacher(1, "A", 50, [1]), Teacher(2, "A", -40, [1])]
      && !Solvent(PlaceBid(m, "A", 1, Some(50)).value.teachers)
      && !ExclusiveHoldings(PlaceBid(m, "A", 1, Some(50)).value.teachers)
  {
    var ts := [Teacher(1, "A", 100, []), Teacher(2, "A", 10, [])];
    var ts' := TransferTeachers(ts, "A", 50, 1);
    assert FindHolder(ts, 1) == None;
    assert ts'[0] == Charged(Released(ts[0], None, 1), "A", 50, 1);
    assert ts'[1] == Charged(Released(ts[1], None, 1), "A", 50, 1);
    assert [] + [1] == [1];
    assert ts'[0] == Teacher(1, "A", 50, [1]) && ts'[1] == Teacher(2, "A", -40, [1]);
    assert ts' == [Teacher(1, "A", 50, [1]), Teacher(2, "A", -40, [1])];
    assert 1 in ts'[0].currentBids && 1 in ts'[1].currentBids;
  }

  /** Looking a student up by id sees the same card whatever the base prices are. */
  lemma FindStudentIgnoresBasePrice(ss: seq<Student>, ss2: seq<Student>, sid: int)
    requires |ss2| == |ss|
    requires forall i :: 0 <= i < |ss| ==> ss2[i] == ss[i].(basePrice := ss2[i].basePrice)
    ensures FindStudent(ss2, sid).Some? == FindStudent(ss, sid).Some?
    ensures FindStudent(ss, sid).Some? ==>
              FindStudent(ss2, sid).value.currentBid == FindStudent(ss, sid).value.currentBid
  {
    var f1, f2 := FindStudent(ss, sid), FindStudent(ss2, sid);
    assert forall j :: 0 <= j < |ss| ==> ss2[j].id == ss[j].id;
    if f1.Some? {
      var k1 :| 0 <= k1 < |ss| && ss[k1] == f1.value && forall j :: 0 <= j < k1 ==> ss[j].id != sid;
      var k2 :| 0 <= k2 < |ss2| && ss2[k2] == f2.value && forall j :: 0 <= j < k2 ==> ss2[j].id != sid;
    }
  }

  /**
   * The base price is never consulted: two markets that differ only in their students' base
   * prices get the same verdict, and on success the same teachers.
   */
  lemma BasePriceIgnored(m: Market, m2: Market, bidder: string, sid: int, input: Option<int>)
    requires m2.teachers == m.teachers && |m2.students| == |m.students|
    requires forall i :: 0 <= i < |m.students| ==> m2.students[i] == m.students[i].(basePrice := m2.students[i].basePrice)
    ensures PlaceBid(m2, bidder, sid, input).Ok? == PlaceBid(m, bidder, sid, input).Ok?
    ensures PlaceBid(m, bidder, sid, input).Err? ==> PlaceBid(m2, bidder, sid, input) == PlaceBid(m, bidder, sid, input)
    ensures PlaceBid(m, bidder, sid, input).Ok? ==>
              PlaceBid(m2, bidder, sid, input).value.teachers == PlaceBid(m, bidder, sid, input).value.teachers
  {
    FindStudentIgnoresBasePrice(m.students, m2.students, sid);
  }

  // ---------------------------------------------------------------------------------------------
  // The component's state

  /** The dashboard component: its state hooks, and the handlers that assign them. */
  class Dashboard {
    var students: seq<Student>
    var teachers: seq<Teacher>
    var selectedStudent: Option<Student>
    /** The bid input box after `parseInt`; None while it is empty or not a number. */
    var bidAmount: Option<int>
    var currentTeacher: string

    ghost predicate Valid()
      reads this
    {
      ValidMarket(Market(students, teachers))
    }

    /** The component's first render: the hard-coded lists. */
    constructor ()
      ensures Valid()
      ensures students == InitialStudents && teachers == InitialTeachers
      ensures selectedStudent == None && bidAmount == None && currentTeacher == LoggedInTeacher
    {
      students := InitialStudents;
      teachers := InitialTeachers;
      selectedStudent := None;
      bidAmount := None;
      currentTeacher := LoggedInTeacher;
      FixtureIsValid();
    }

    /** The "Place Bid" button of a student card opens the bid dialog for that student. */
    method SelectStudent(s: Student)
      modifies this`selectedStudent
      ensures selectedStudent == Some(s)
    {
      selectedStudent := Some(s);
    }

    /** The dialog's "Cancel" button closes it. */
    method CancelBid()
      modifies this`selectedStudent
      ensures selectedStudent == None
    {
      selectedStudent := None;
    }

    /** Typing in the bid amount box. */
    method EnterBidAmount(amount: Option<int>)
      modifies this`bidAmount
      ensures bidAmount == amount
    {
      bidAmount := amount;
    }

    /**
     * `handleBid(studentId)`: returns why the bid was turned down, if it was (an alert, or the
     * throw of StudentMissing). A bid turned down sets nothing; an accepted one commits the new
     * lists, clears the input and closes the dialog. The invariants of the state are kept either way.
     */
    method HandleBid(studentId: int) returns (alert: Option<BidError>)
      requires Valid()
      modifies this
      ensures Valid()
      ensures currentTeacher == old(currentTeacher)
      ensures var r := PlaceBid(old(Market(students, teachers)), old(currentTeacher), studentId, old(bidAmount));
        match r
        case Err(e) =>
          && alert == Some(e)
          && students == old(students) && teachers == old(teachers)
          && bidAmount == old(bidAmount) && selectedStudent == old(selectedStudent)
        case Ok(next) =>
          && alert == None
          && students == next.students && teachers == next.teachers
          && bidAmount == None && selectedStudent == None
    {
      var r := PlaceBid(Market(students, teachers), currentTeacher, studentId, bidAmount);
      match r {
        case Err(e) =>
          alert := Some(e);
        case Ok(next) =>
          PlaceBidPreservesValid(Market(students, teachers), currentTeacher, studentId, bidAmount);
          students := next.students;
          teachers := next.teachers;
          bidAmount := None;
          selectedStudent := None;
          alert := None;
      }
    }
  }

  // ---------------------------------------------------------------------------------------------
  // The fixture

  lemma FixtureIsValid()
    ensures ValidMarket(Market(InitialStudents, InitialTeachers))
  {
    var ts := InitialTeachers;
    forall i, x | 0 <= i < |ts| ensures multiset(ts[i].currentBids)[x] <= 1 {
      assert i == 0 || i == 1 || i == 2 || i == 3;
    }
    forall i, j, x | 0 <= i < |ts| && 0 <= j < |ts| && i != j && x in ts[i].currentBids
      ensures x !in ts[j].currentBids
    {
      assert i == 0 || i == 1 || i == 2 || i == 3;
    }
  }

  /** The lookups the fixture's bids make. */
  lemma FixtureLookups()
    ensures GetTeacherByName(InitialTeachers, LoggedInTeacher) == Some(InitialTeachers[3])
    ensures FindStudent(InitialStudents, 1) == Some(InitialStudents[0])
    ensures FindHolder(InitialTeachers, 1) == Some(InitialTeachers[0])
    ensures Without([1], 1) == []
  {
  }

  /** The teachers after the fixture's outbid step (see FixtureOutbid). */
  const OutbidTeachers: seq<Teacher> := [
    Teacher(1, "Dr. Tatwadarshi Nagarhalli", 200, []),
    Teacher(2, "Mrs. Sejal D Mello", 150, [3]),
    Teacher(3, "Ms. Neha Raut", 180, [5]),
    Teacher(4, "Prof. Raunak Joshi", 160, [1])
  ]

  lemma FixtureTransferAt(i: nat)
    requires i < 4
    ensures TransferTeachers(InitialTeachers, LoggedInTeacher, 60, 1)[i] == OutbidTeachers[i]
  {
    var ts := InitialTeachers;
    FixtureLookups();
    assert TransferTeachers(ts, LoggedInTeacher, 60, 1)[i] ==
           Charged(Released(ts[i], Some(1), 1), LoggedInTeacher, 60, 1);
    if i < 3 {
      assert ts[i].name != LoggedInTeacher;
    }
  }

  lemma FixtureTransfer()
    ensures TransferTeachers(InitialTeachers, LoggedInTeacher, 60, 1) == OutbidTeachers
  {
    forall i | 0 <= i < 4
      ensures TransferTeachers(InitialTeachers, LoggedInTeacher, 60, 1)[i] == OutbidTeachers[i]
    {
      FixtureTransferAt(i);
    }
  }

  lemma FixtureRecord()
    ensures RecordStudents(InitialStudents, 1, 60, LoggedInTeacher) ==
            InitialStudents[0 := InitialStudents[0].(currentBid := 60, currentTeacher := Some(LoggedInTeacher))]
  {
    var ss' := RecordStudents(InitialStudents, 1, 60, LoggedInTeacher);
    forall i | 1 <= i < 5 ensures ss'[i] == InitialStudents[i] {
      assert InitialStudents[i].id != 1;
    }
  }

  /**
   * Prof. Raunak Joshi bids 60 for Ankit Bari (held at 50 by Dr. Tatwadarshi Nagarhalli): the card
   * now shows 60 and the new holder, the student moves between the two lists, the bidder pays 60
   * and the previous holder's purse stays at 200.
   */
  lemma FixtureOutbid()
    ensures PlaceBid(Market(InitialStudents, InitialTeachers), LoggedInTeacher, 1, Some(60)) ==
      Ok(Market(InitialStudents[0 := InitialStudents[0].(currentBid := 60, currentTeacher := Some(LoggedInTeacher))],
                OutbidTeachers))
  {
    FixtureLookups();
    FixtureTransfer();
    FixtureRecord();
  }

  /** A bid of 50 for the same student equals the current bid and is refused, whatever the purse. */
  lemma FixtureEqualBidRefused()
    ensures PlaceBid(Market(InitialStudents, InitialTeachers), LoggedInTeacher, 1, Some(50)) == Err(BidTooLow(50))
  {
  }
}
