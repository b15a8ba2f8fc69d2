/** The enrollment records of server.js (the `students.json` array):
    `/save-student` appends a record with defaults filled in and
    `/verify-payment` marks the first record of a mobile as verified.
    The file is an in-memory sequence; the ISO-8601 timestamps produced
    by `new Date().toISOString()` are opaque strings passed in. */
module RecordStore {
  import opened JsValue

  /** One element of the array. `verifiedAt` is `Undefined` until the
      payment of the record is verified. */
  datatype Student = Student(
    name: Value, mobile: Value, email: Value, amount: Value,
    coupon: Value, paymentId: Value, status: Value,
    date: string, verifiedAt: Value)

  /** The fields of a `/save-student` request body. */
  datatype SaveRequest = SaveRequest(
    name: Value, mobile: Value, email: Value, amount: Value,
    coupon: Value, status: Value, paymentId: Value)

  datatype SaveResult = MissingFields | Saved

  datatype PaymentResult = MobileRequired | StudentNotFound | PaymentVerified(index: nat)

  const Pending: Value := Str("PENDING")
  const Verified: Value := Str("VERIFIED")

  /** What every record written by the server satisfies: the required
      fields are truthy, each defaulted field is its input or its default. */
  predicate WellFormed(s: Student) {
    && Truthy(s.name) && Truthy(s.mobile) && Truthy(s.amount) && Truthy(s.status)
    && (s.email == Null || Truthy(s.email))
    && (s.coupon == Null || Truthy(s.coupon))
    && (s.paymentId == Null || Truthy(s.paymentId))
  }

  predicate AllWellFormed(students: seq<Student>) {
    forall i :: 0 <= i < |students| ==> WellFormed(students[i])
  }

  predicate HasRequiredFields(req: SaveRequest) {
    Truthy(req.name) && Truthy(req.mobile) && Truthy(req.amount)
  }

  /** The record `/save-student` builds: name, mobile and amount as given;
      email, coupon and paymentId as given when truthy and null otherwise;
      status as given when truthy and "PENDING" otherwise. */
  function NewRecord(req: SaveRequest, date: string): (s: Student)
    requires HasRequiredFields(req)
    ensures WellFormed(s)
    ensures s.name == req.name && s.mobile == req.mobile && s.amount == req.amount
    ensures Truthy(req.email) ==> s.email == req.email
    ensures !Truthy(req.email) ==> s.email == Null
    ensures Truthy(req.coupon) ==> s.coupon == req.coupon
    ensures !Truthy(req.coupon) ==> s.coupon == Null
    ensures Truthy(req.paymentId) ==> s.paymentId == req.paymentId
    ensures !Truthy(req.paymentId) ==> s.paymentId == Null
    ensures Truthy(req.status) ==> s.status == req.status
    ensures !Truthy(req.status) ==> s.status == Pending
    ensures s.date == date && s.verifiedAt == Undefined
  {
    Student(req.name, req.mobile, Or(req.email, Null), req.amount,
            Or(req.coupon, Null), Or(req.paymentId, Null), Or(req.status, Pending),
            date, Undefined)
  }

  /** `/save-student`: a request without a truthy name, mobile or amount
      leaves the records as they are; otherwise exactly one record is
      appended and every earlier record is kept in place. */
  function Save(students: seq<Student>, req: SaveRequest, date: string): (r: (SaveResult, seq<Student>))
    ensures r.0 == Saved <==> HasRequiredFields(req)
    ensures r.0 == MissingFields ==> r.1 == students
    ensures r.0 == Saved ==>
      && |r.1| == |students| + 1
      && r.1[..|students|] == students
      && r.1[|students|] == NewRecord(req, date)
  {
    if !HasRequiredFields(req) then (MissingFields, students)
    else (Saved, students + [NewRecord(req, date)])
  }

  /** `students.findIndex(s => s.mobile === mobile)`: the lowest index
      of a record with that mobile, or -1 when there is none. */
  function FirstMatch(students: seq<Student>, mobile: Value): (r: int)
    ensures -1 <= r < |students|
    ensures r == -1 <==> forall i :: 0 <= i < |students| ==> students[i].mobile != mobile
    ensures r >= 0 ==> students[r].mobile == mobile
    ensures r >= 0 ==> forall i :: 0 <= i < r ==> students[i].mobile != mobile
  {
    if |students| == 0 then -1
    else if students[0].mobile == mobile then 0
    else
      var k := FirstMatch(students[1..], mobile);
      if k == -1 then -1 else k + 1
  }

  /** `/verify-payment`: a falsy mobile, or one no record has, changes
      nothing; otherwise only the record at the lowest index with that
      mobile gets status "VERIFIED" and the verification time, and every
      other record and the length stay as they were. */
  function MarkVerified(students: seq<Student>, mobile: Value, at: string): (r: (PaymentResult, seq<Student>))
    ensures !Truthy(mobile) ==> r == (MobileRequired, students)
    ensures Truthy(mobile) && FirstMatch(students, mobile) == -1 ==> r == (StudentNotFound, students)
    ensures r.0.PaymentVerified? <==> Truthy(mobile) && FirstMatch(students, mobile) >= 0
    ensures r.0.PaymentVerified? ==>
      var i := r.0.index;
      && Truthy(mobile)
      && i < |students| && students[i].mobile == mobile
      && (forall j :: 0 <= j < i ==> students[j].mobile != mobile)
      && |r.1| == |students|
      && r.1[i] == students[i].(status := Verified, verifiedAt := Str(at))
      && (forall j :: 0 <= j < |students| && j != i ==> r.1[j] == students[j])
  {
    if !Truthy(mobile) then (MobileRequired, students)
    else
      var i := FirstMatch(students, mobile);
      if i == -1 then (StudentNotFound, students)
      else (PaymentVerified(i), students[i := students[i].(status := Verified, verifiedAt := Str(at))])
  }

  /** The `findIndex` scan, front to back. */
  method FindIndex(students: seq<Student>, mobile: Value) returns (index: int)
    ensures index == FirstMatch(students, mobile)
  {
    var i := 0;
    while i < |students|
      invariant 0 <= i <= |students|
      invariant forall j :: 0 <= j < i ==> students[j].mobile != mobile
    {
      if students[i].mobile == mobile {
        return i;
      }
      i := i + 1;
    }
    return -1;
  }

  /** The contents of `students.json`, read and rewritten by each request. */
  class Students {
    var students: seq<Student>

    /** Every record was written by `/save-student`, so the record that
        verify-payment describes in its message has a truthy mobile and amount. */
    ghost predicate Valid()
      reads this
    {
      AllWellFormed(students)
    }

    /** The file as the server creates it when it is missing. */
    constructor ()
      ensures Valid() && students == []
    {
      students := [];
    }

    method SaveStudent(req: SaveRequest, date: string) returns (r: SaveResult)
      requires Valid()
      modifies this
      ensures Valid()
      ensures (r, students) == Save(old(students), req, date)
    {
      if !Truthy(req.name) || !Truthy(req.mobile) || !Truthy(req.amount) {
        return MissingFields;
      }
      var record := Student(req.name, req.mobile, Or(req.email, Null), req.amount,
                            Or(req.coupon, Null), Or(req.paymentId, Null),
                            Or(req.status, Pending), date, Undefined);
      students := students + [record];
      r := Saved;
    }

    method VerifyPayment(mobile: Value, at: string) returns (r: PaymentResult)
      requires Valid()
      modifies this
      ensures Valid()
      ensures (r, students) == MarkVerified(old(students), mobile, at)
      ensures r.PaymentVerified? ==>
        Truthy(students[r.index].mobile) && Truthy(students[r.index].amount)
    {
      if !Truthy(mobile) {
        return MobileRequired;
      }
      var index := FindIndex(students, mobile);
      if index == -1 {
        return StudentNotFound;
      }
      students := students[index := students[index].(status := Verified, verifiedAt := Str(at))];
      r := PaymentVerified(index);
    }
  }

  /** Both operations keep every record well formed. */
  lemma OperationsPreserveWellFormed(students: seq<Student>, req: SaveRequest, mobile: Value, date: string)
    requires AllWellFormed(students)
    ensures AllWellFormed(Save(students, req, date).1)
    ensures AllWellFormed(MarkVerified(students, mobile, date).1)
  {
    var s := Save(students, req, date).1;
    if HasRequiredFields(req) {
      forall i | 0 <= i < |s| ensures WellFormed(s[i]) {
        if i < |students| {
          assert s[i] == s[..|students|][i];
        }
      }
    }
  }

  /** Listing after a save returns the new record last, carrying the
      request's name, mobile and amount unchanged. */
  lemma SaveRoundTrip(students: seq<Student>, req: SaveRequest, date: string)
    requires HasRequiredFields(req)
    ensures var s := Save(students, req, date).1;
      Last(s).name == req.name && Last(s).mobile == req.mobile && Last(s).amount == req.amount
      && Last(s).status == (if Truthy(req.status) then req.status else Pending)
  {
  }

  function Last(s: seq<Student>): Student
    requires |s| > 0
  {
    s[|s| - 1]
  }

  /** A mobile that enrolls a second time: verify-payment marks the first
      record again and the new record stays as it was saved. */
  lemma RepeatEnrollmentLeavesNewRecord(students: seq<Student>, req: SaveRequest, date: string, at: string)
    requires HasRequiredFields(req)
    requires FirstMatch(students, req.mobile) >= 0
    ensures var s := Save(students, req, date).1;
      var r := MarkVerified(s, req.mobile, at);
      && r.0 == PaymentVerified(FirstMatch(students, req.mobile))
      && r.1[|students|] == NewRecord(req, date)
  {
    var s := Save(students, req, date).1;
    var i := FirstMatch(students, req.mobile);
    assert s[..|students|] == students;
    assert s[i] == students[i];
    forall j | 0 <= j < i ensures s[j].mobile != req.mobile {
      assert s[j] == students[j];
    }
  }

  /** With no truthy mobile no stored record can match, so the explicit
      mobile check and the search agree on a refusal. */
  lemma FalsyMobileMatchesNothing(students: seq<Student>, mobile: Value)
    requires AllWellFormed(students) && !Truthy(mobile)
    ensures FirstMatch(students, mobile) == -1
  {
    forall i | 0 <= i < |students| ensures students[i].mobile != mobile {
      assert WellFormed(students[i]);
    }
  }
}
