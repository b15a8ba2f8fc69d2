/** The one-time-password ledger `otpStore` of server.js: a map from the
    property key of a mobile number to its pending code and expiry time.
    `/send-otp` issues a code, `/verify-otp` checks one. The clock
    (`Date.now()`) and the random code are parameters. */
module OtpLedger {
  import opened JsValue

  /** How long a code stays valid: 5 minutes, in milliseconds. */
  const TtlMs: int := 5 * 60 * 1000

  /** `{ otp, expiresAt }`: the code as its decimal text and the last
      millisecond at which it is still accepted. */
  datatype Entry = Entry(otp: string, expiresAt: int)

  type Store = map<string, Entry>

  datatype SendResult = MobileRequired | Sent

  datatype VerifyResult = NotFound | Expired | Mismatch | Success

  /** The codes `Math.floor(100000 + Math.random() * 900000)` can produce. */
  predicate IsCode(code: int) {
    100000 <= code <= 999999
  }

  /** Every entry holds a six-digit code. */
  predicate WellFormed(store: Store) {
    forall k :: k in store ==> |store[k].otp| == 6 && IsDigits(store[k].otp)
  }

  /** `/send-otp`: a falsy mobile is refused and nothing changes; otherwise
      the entry for that mobile is replaced by the new code, valid until
      `now + TtlMs`, and every other mobile keeps its entry. */
  function Issue(store: Store, mobile: Value, code: int, now: int): (r: (SendResult, Store))
    requires IsCode(code)
    ensures r.0 == Sent <==> Truthy(mobile)
    ensures r.0 == MobileRequired ==> r.1 == store
    ensures r.0 == Sent ==>
      var k := PropertyKey(mobile);
      && r.1.Keys == store.Keys + {k}
      && |r.1[k].otp| == 6 && IsDigits(r.1[k].otp) && DecimalValue(r.1[k].otp) == code
      && r.1[k].expiresAt == now + TtlMs
      && (forall k' :: k' in store && k' != k ==> r.1[k'] == store[k'])
  {
    if !Truthy(mobile) then (MobileRequired, store)
    else
      DecimalLength(code, 6);
      DecimalRoundTrip(code);
      (Sent, store[PropertyKey(mobile) := Entry(Decimal(code), now + TtlMs)])
  }

  /** `/verify-otp`, with its four outcomes. The code is still live at
      `now == expiresAt`. An expired or accepted entry is removed; a
      mismatch keeps it, so the user may retry; nothing else changes. */
  function Verify(store: Store, mobile: Value, otp: Value, now: int): (r: (VerifyResult, Store))
    ensures var k := PropertyKey(mobile);
      && (r.0 == NotFound <==> k !in store)
      && (r.0 == Expired <==> k in store && now > store[k].expiresAt)
      && (r.0 == Success <==> k in store && now <= store[k].expiresAt && otp == Str(store[k].otp))
      && (r.0 == Expired || r.0 == Success ==> r.1 == store - {k})
      && (r.0 == NotFound || r.0 == Mismatch ==> r.1 == store)
  {
    var k := PropertyKey(mobile);
    if k !in store then (NotFound, store)
    else if now > store[k].expiresAt then (Expired, store - {k})
    else if Str(store[k].otp) != otp then (Mismatch, store)
    else (Success, store - {k})
  }

  /** The ledger as server.js keeps it: one mutable object per process. */
  class Ledger {
    var otpStore: Store

    /** Every stored code is six digits and no entry sits under the empty
        key, so only a six-digit text is ever accepted and an empty mobile
        is never found. */
    ghost predicate Valid()
      reads this
    {
      WellFormed(otpStore) && "" !in otpStore
    }

    constructor ()
      ensures Valid() && otpStore == map[]
    {
      otpStore := map[];
    }

    method SendOtp(mobile: Value, code: int, now: int) returns (r: SendResult)
      requires Valid() && IsCode(code)
      modifies this
      ensures Valid()
      ensures (r, otpStore) == Issue(old(otpStore), mobile, code, now)
    {
      if !Truthy(mobile) {
        return MobileRequired;
      }
      DecimalLength(code, 6);
      var otp := Decimal(code);
      otpStore := otpStore[PropertyKey(mobile) := Entry(otp, now + TtlMs)];
      r := Sent;
    }

    method VerifyOtp(mobile: Value, otp: Value, now: int) returns (r: VerifyResult)
      requires Valid()
      modifies this
      ensures Valid()
      ensures (r, otpStore) == Verify(old(otpStore), mobile, otp, now)
      ensures mobile == Str("") ==> r == NotFound
      ensures r == Success ==> otp.Str? && |otp.s| == 6 && IsDigits(otp.s)
    {
      var key := PropertyKey(mobile);
      if key !in otpStore {
        return NotFound;
      }
      var record := otpStore[key];
      if now > record.expiresAt {
        otpStore := otpStore - {key};
        return Expired;
      }
      if Str(record.otp) != otp {
        return Mismatch;
      }
      otpStore := otpStore - {key};
      r := Success;
    }
  }

  /** Both operations keep every stored code six digits long. */
  lemma OperationsPreserveWellFormed(store: Store, mobile: Value, otp: Value, code: int, now: int)
    requires WellFormed(store) && IsCode(code)
    ensures WellFormed(Issue(store, mobile, code, now).1)
    ensures WellFormed(Verify(store, mobile, otp, now).1)
  {
  }

  /** A code verified within five minutes of being issued is accepted,
      whatever the ledger held for that mobile before. */
  lemma IssueThenVerifySucceeds(store: Store, mobile: Value, code: int, t: int, t': int)
    requires IsCode(code) && Truthy(mobile) && t' <= t + TtlMs
    ensures Verify(Issue(store, mobile, code, t).1, mobile, Str(Decimal(code)), t').0 == Success
  {
    var s := Issue(store, mobile, code, t).1;
    var k := PropertyKey(mobile);
    DecimalRoundTrip(code);
    DecimalLength(code, 6);
    assert s[k] == Entry(Decimal(code), t + TtlMs);
  }

  /** One millisecond past the window the same code is refused as expired. */
  lemma IssueThenVerifyLateExpires(store: Store, mobile: Value, code: int, otp: Value, t: int, t': int)
    requires IsCode(code) && Truthy(mobile) && t' > t + TtlMs
    ensures Verify(Issue(store, mobile, code, t).1, mobile, otp, t').0 == Expired
  {
  }

  /** After an expiry the entry is gone: the next attempt finds nothing. */
  lemma ExpiredThenNotFound(store: Store, mobile: Value, otp: Value, otp': Value, t: int, t': int)
    requires Verify(store, mobile, otp, t).0 == Expired
    ensures Verify(Verify(store, mobile, otp, t).1, mobile, otp', t').0 == NotFound
  {
  }

  /** Codes are single-use: after a success the next attempt finds nothing. */
  lemma SuccessThenNotFound(store: Store, mobile: Value, otp: Value, otp': Value, t: int, t': int)
    requires Verify(store, mobile, otp, t).0 == Success
    ensures Verify(Verify(store, mobile, otp, t).1, mobile, otp', t').0 == NotFound
  {
  }

  /** A wrong guess keeps the entry: the right code, still in time, succeeds. */
  lemma MismatchThenCorrectSucceeds(store: Store, mobile: Value, wrong: Value, t: int, t': int)
    requires Verify(store, mobile, wrong, t).0 == Mismatch
    requires t' <= store[PropertyKey(mobile)].expiresAt
    ensures Verify(Verify(store, mobile, wrong, t).1, mobile, Str(store[PropertyKey(mobile)].otp), t').0 == Success
  {
  }

  /** Issuing again replaces the code: right after a second issue with a
      different code, the first code is refused (as a mismatch, or as
      expired once the new window has passed) and never accepted. */
  lemma ReissueInvalidatesFirstCode(store: Store, mobile: Value, c1: int, c2: int, t1: int, t2: int, t: int)
    requires IsCode(c1) && IsCode(c2) && c1 != c2 && Truthy(mobile)
    ensures
      var s := Issue(Issue(store, mobile, c1, t1).1, mobile, c2, t2).1;
      var r := Verify(s, mobile, Str(Decimal(c1)), t).0;
      r == Mismatch || r == Expired
  {
    var s := Issue(Issue(store, mobile, c1, t1).1, mobile, c2, t2).1;
    var k := PropertyKey(mobile);
    DecimalRoundTrip(c1);
    assert DecimalValue(s[k].otp) == c2;
    assert Decimal(c1) != s[k].otp;
  }

  /** Verifying one mobile never touches the entry of another. */
  lemma VerifyIsLocal(store: Store, mobile: Value, otp: Value, now: int, other: string)
    requires other != PropertyKey(mobile)
    ensures var s := Verify(store, mobile, otp, now).1;
      (other in s <==> other in store) && (other in store ==> s[other] == store[other])
  {
  }

  /** A request to `/verify-otp` without a mobile looks up the key
      "undefined", which a send-otp for the mobile text "undefined" fills. */
  lemma AbsentMobileReadsUndefinedKey(store: Store, code: int, t: int)
    requires IsCode(code)
    ensures Verify(Issue(store, Str("undefined"), code, t).1, Undefined, Str(Decimal(code)), t).0 == Success
  {
    IssueThenVerifySucceeds(store, Str("undefined"), code, t, t);
  }
}
