/** The `/validate-coupon` decision of server.js: one recognised coupon,
    which replaces the plan amount by a flat amount, at most once per
    mobile as far as the stored records show. The decision only reads the
    records; recording a redemption is up to a later `/save-student`. */
module CouponPolicy {
  import opened JsValue
  import opened RecordStore

  const ValidCoupon: string := "M09B84"

  /** The price after the coupon: a fixed amount, not a deduction. */
  const DiscountAmount: int := 28

  /** The outcome and the amount returned to the client. */
  datatype CouponResult = Invalid(amount: Value) | AlreadyUsed(amount: Value) | Applied(amount: Value)

  /** `students.some(s => s.mobile === mobile && s.coupon === VALID_COUPON)` */
  predicate UsedBy(students: seq<Student>, mobile: Value) {
    exists i :: 0 <= i < |students| && students[i].mobile == mobile && students[i].coupon == Str(ValidCoupon)
  }

  /** Any coupon other than the recognised one is invalid, whatever the
      records say; the recognised one is refused when the mobile already
      has a record carrying it, and applied otherwise. A refusal returns
      the plan amount; an application returns 28 whatever the plan. */
  function Validate(students: seq<Student>, mobile: Value, coupon: Value, planAmount: Value): (r: CouponResult)
    ensures r.Invalid? <==> coupon != Str(ValidCoupon)
    ensures r.AlreadyUsed? <==> coupon == Str(ValidCoupon) && UsedBy(students, mobile)
    ensures r.Applied? <==> coupon == Str(ValidCoupon) && !UsedBy(students, mobile)
    ensures r.Applied? ==> r.amount == Num(DiscountAmount)
    ensures !r.Applied? ==> r.amount == planAmount
  {
    var alreadyUsed := UsedBy(students, mobile);
    if coupon != Str(ValidCoupon) then Invalid(planAmount)
    else if alreadyUsed then AlreadyUsed(planAmount)
    else Applied(Num(DiscountAmount))
  }

  /** A request that changes the records. */
  datatype StoreOp = SaveOp(req: SaveRequest, date: string) | VerifyOp(mobile: Value, at: string)

  function Apply(students: seq<Student>, op: StoreOp): seq<Student> {
    match op
    case SaveOp(req, date) => Save(students, req, date).1
    case VerifyOp(mobile, at) => MarkVerified(students, mobile, at).1
  }

  function Run(students: seq<Student>, ops: seq<StoreOp>): seq<Student>
    decreases |ops|
  {
    if ops == [] then students else Run(Apply(students, ops[0]), ops[1..])
  }

  /** Saving and verifying never erase a redemption: records are only
      appended, and verify-payment changes status and verifiedAt only. */
  lemma ApplyKeepsUsage(students: seq<Student>, op: StoreOp, mobile: Value)
    requires UsedBy(students, mobile)
    ensures UsedBy(Apply(students, op), mobile)
  {
    var i :| 0 <= i < |students| && students[i].mobile == mobile && students[i].coupon == Str(ValidCoupon);
    var s := Apply(students, op);
    match op
    case SaveOp(req, date) =>
      if HasRequiredFields(req) {
        assert s[i] == s[..|students|][i];
      }
      assert s[i] == students[i];
    case VerifyOp(m, at) =>
      assert s[i].mobile == mobile && s[i].coupon == Str(ValidCoupon);
  }

  /** Once the records show a redemption for a mobile, no later sequence
      of saves and payment verifications lets the coupon apply again. */
  lemma {:induction false} UsageIsPermanent(students: seq<Student>, ops: seq<StoreOp>, mobile: Value, planAmount: Value)
    requires UsedBy(students, mobile)
    ensures UsedBy(Run(students, ops), mobile)
    ensures Validate(Run(students, ops), mobile, Str(ValidCoupon), planAmount) == AlreadyUsed(planAmount)
    decreases |ops|
  {
    if ops != [] {
      ApplyKeepsUsage(students, ops[0], mobile);
      UsageIsPermanent(Apply(students, ops[0]), ops[1..], mobile, planAmount);
    }
  }

  /** The enrollment scenario: for a mobile with no redemption on record a
      first validation applies the coupon; once a record for that mobile is
      saved with the coupon, the next validation reports it as already used. */
  lemma ApplyThenSaveThenAlreadyUsed(students: seq<Student>, req: SaveRequest, date: string, planAmount: Value)
    requires HasRequiredFields(req) && req.coupon == Str(ValidCoupon)
    ensures !UsedBy(students, req.mobile) ==>
      Validate(students, req.mobile, Str(ValidCoupon), planAmount) == Applied(Num(DiscountAmount))
    ensures Validate(Save(students, req, date).1, req.mobile, Str(ValidCoupon), planAmount) == AlreadyUsed(planAmount)
  {
    var s := Save(students, req, date).1;
    assert s[|students|].mobile == req.mobile && s[|students|].coupon == Str(ValidCoupon);
  }

  /** A saved record for another mobile, or without the coupon, adds no
      redemption for this mobile. */
  lemma UnrelatedSaveKeepsUsage(students: seq<Student>, req: SaveRequest, date: string, mobile: Value)
    requires req.mobile != mobile || req.coupon != Str(ValidCoupon)
    ensures UsedBy(Save(students, req, date).1, mobile) == UsedBy(students, mobile)
  {
    if HasRequiredFields(req) {
      var r := NewRecord(req, date);
      var s := students + [r];
      assert Save(students, req, date).1 == s;
      assert !(r.mobile == mobile && r.coupon == Str(ValidCoupon));
      if UsedBy(s, mobile) {
        var i :| 0 <= i < |s| && s[i].mobile == mobile && s[i].coupon == Str(ValidCoupon);
        assert i < |students| && s[i] == students[i];
      }
      if UsedBy(students, mobile) {
        var i :| 0 <= i < |students| && students[i].mobile == mobile && students[i].coupon == Str(ValidCoupon);
        assert s[i] == students[i];
      }
    }
  }

  /** Saving a record with the coupon for another mobile, or with another
      coupon, does not change the verdict for this mobile. */
  lemma UnrelatedSaveKeepsVerdict(students: seq<Student>, req: SaveRequest, date: string, mobile: Value, coupon: Value, planAmount: Value)
    requires req.mobile != mobile || req.coupon != Str(ValidCoupon)
    ensures Validate(Save(students, req, date).1, mobile, coupon, planAmount) == Validate(students, mobile, coupon, planAmount)
  {
    UnrelatedSaveKeepsUsage(students, req, date, mobile);
  }

  /** Save does not consult the policy: two records of one mobile can both
      carry the coupon, so single use holds only for clients that validate
      before each save. */
  lemma SaveDoesNotEnforceSingleUse(date: string)
    ensures
      var req := SaveRequest(Str("A"), Str("+919999999999"), Undefined, Num(28), Str(ValidCoupon), Undefined, Undefined);
      var s := Save(Save([], req, date).1, req, date);
      s.0 == Saved && |s.1| == 2
      && s.1[0].coupon == Str(ValidCoupon) && s.1[1].coupon == Str(ValidCoupon)
      && s.1[0].mobile == s.1[1].mobile
  {
  }
}
