/** `/verify-otp` exactly as server.js writes it, where `otpStore` is a
    plain object literal. Reading `otpStore[mobile]` for a key the store
    does not own falls through to Object.prototype, so a mobile spelled
    like an inherited member ("constructor", "toString", "__proto__", ...)
    yields a truthy record whose `expiresAt` and `otp` are undefined.
    `now > undefined` is false, and `undefined !== otp` is false when the
    request has no `otp` field, so the handler reports success.

    OtpLedger.Verify is the corrected definition: it looks up own keys only
    (as `Object.hasOwn` or a `Map` would), and the rest of the model uses it. */
module OtpAsWritten {
  import opened JsValue
  import opened OtpLedger

  /** The members every plain object inherits from Object.prototype. */
  const InheritedNames: set<string> := {
    "constructor", "hasOwnProperty", "isPrototypeOf", "propertyIsEnumerable",
    "toLocaleString", "toString", "valueOf", "__proto__",
    "__defineGetter__", "__defineSetter__", "__lookupGetter__", "__lookupSetter__"
  }

  /** On an own key it behaves as the corrected Verify. On an inherited
      name the record is a function or Object.prototype itself: it never
      expires, it matches exactly an absent `otp`, and `delete` of a
      property the store does not own changes nothing.
      A store with an own "__proto__" entry cannot arise as written
      (assigning `otpStore["__proto__"]` replaces the prototype instead),
      hence the precondition. */
  function VerifyAsWritten(store: Store, mobile: Value, otp: Value, now: int): (r: (VerifyResult, Store))
    requires "__proto__" !in store
    ensures PropertyKey(mobile) in store ==> r == Verify(store, mobile, otp, now)
    ensures PropertyKey(mobile) !in store && PropertyKey(mobile) !in InheritedNames ==> r == (NotFound, store)
    ensures PropertyKey(mobile) !in store && PropertyKey(mobile) in InheritedNames ==>
      r.1 == store && (r.0 == Success <==> otp == Undefined) && (r.0 != Success ==> r.0 == Mismatch)
  {
    var k := PropertyKey(mobile);
    if k in store then Verify(store, mobile, otp, now)
    else if k !in InheritedNames then (NotFound, store)
    else if otp != Undefined then (Mismatch, store)
    else (Success, store)
  }

  /** The input that shows it: with no code ever issued, `{"mobile":
      "constructor"}` is accepted by the code as written, and refused by
      the corrected ledger. */
  lemma InheritedNameBypassesOtp(now: int)
    ensures VerifyAsWritten(map[], Str("constructor"), Undefined, now).0 == Success
    ensures Verify(map[], Str("constructor"), Undefined, now).0 == NotFound
  {
    assert "constructor" in InheritedNames;
  }

  /** What the corrected ledger guarantees instead: a success needs an
      entry that was issued for that very key and the code stored in it,
      so an empty ledger accepts nothing. */
  lemma CorrectedNeedsIssuedCode(store: Store, mobile: Value, otp: Value, now: int)
    requires Verify(store, mobile, otp, now).0 == Success
    ensures PropertyKey(mobile) in store && otp == Str(store[PropertyKey(mobile)].otp)
    ensures store != map[]
  {
  }
}
