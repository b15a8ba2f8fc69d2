# Enrollment backend core, modelled in Dafny

This project models the state-changing core of `server.js`, an Express backend for an online course enrollment flow. The core has three parts:

- **OTP ledger** (`otpStore`, `/send-otp`, `/verify-otp`). A map from a mobile number to a pending six-digit code and the time it expires. `OtpLedger.Issue` and `OtpLedger.Verify` are the pure specification. `OtpLedger.Ledger` is the mutable object, and its methods update a `map` field.
- **Coupon policy** (`/validate-coupon`). A pure decision over the stored records. It returns Invalid, AlreadyUsed or Applied. Only the one coupon `M09B84` is recognised, and it replaces the plan amount by a flat 28.
- **Record store** (`students.json`, `/save-student`, `/verify-payment`). An append-only sequence of enrollment records. `RecordStore.Students` holds it as a `seq` field. Saving appends a record with defaults filled in. Verifying a payment marks the first record with that mobile as `VERIFIED`, found by a `findIndex` loop (`RecordStore.FindIndex`).

Request fields are JavaScript values (`JsValue.Value`: undefined, null, boolean, number as integer, string). The model keeps the language rules the handlers depend on:

- truthiness: `!amount` rejects 0, and `email || null` turns `""` into null;
- strict equality: an `otp` sent as the number 123456 never matches the stored text `"123456"`;
- property-key conversion: `otpStore[mobile]` uses the key `"undefined"` when no mobile is sent.

Parameters stand in for the clock and the random generator: `now` in milliseconds for `Date.now()`, `date`/`at` strings for `new Date().toISOString()`, and `code` in 100000..999999 for `Math.random()`.

Files: `jsvalue.dfy`, `otp_ledger.dfy`, `record_store.dfy`, `coupon_policy.dfy`, `otp_as_written.dfy`.

Two behaviours of the code worth noting:

- A verify with the wrong code keeps the entry, so the user can retry until it expires. It is not removed.
- Single use of the coupon is not enforced when a record is saved. `CouponPolicy.SaveDoesNotEnforceSingleUse` shows two records of one mobile that both carry the coupon. Validation is advisory only.

## Model

| member | source | states |
|---|---|---|
| JsValue.Decimal | server.js:40 | the text of a code is a non-empty string of decimal digits with no leading zero |
| JsValue.DecimalRoundTrip | server.js:40 | reading back the digits of a number gives the number, so two different codes never have the same text |
| JsValue.DecimalLength | server.js:40 | a number in [10^(k-1), 10^k) has exactly k digits, so every generated code is six characters |
| JsValue.PropertyKey | server.js:57 | a string mobile is its own key, and a truthy mobile never maps to the empty key |
| OtpLedger.Issue | server.js:36-45 | a falsy mobile is refused with the store unchanged; otherwise that mobile's key holds the new six-digit code (its digits read back as the code) expiring at now + 300000, replacing any earlier entry, and no other key changes |
| OtpLedger.Verify | server.js:57-73 | NotFound exactly when the key has no entry; Expired exactly when now > expiresAt; Success exactly when live and the submitted value is the stored text; Expired and Success remove only that key, NotFound and Mismatch leave the store unchanged |
| OtpLedger.Ledger.constructor | server.js:28 | the ledger starts empty |
| OtpLedger.Ledger.SendOtp | server.js:33-50 | the result and the new map are those of Issue on the old map; the ledger invariant (six-digit codes, no empty key) is kept |
| OtpLedger.Ledger.VerifyOtp | server.js:55-74 | the result and the new map are those of Verify on the old map; the ledger invariant is kept; an empty mobile is never found, and only a six-digit text is ever accepted |
| OtpLedger.OperationsPreserveWellFormed | server.js:40-45 | issue and verify keep every stored code six decimal digits |
| OtpLedger.IssueThenVerifySucceeds | server.js:42-73 | right after issuing code c at time t, verifying c at any t' <= t + 300000 succeeds, the boundary included |
| OtpLedger.IssueThenVerifyLateExpires | server.js:63-66 | verifying after t + 300000 reports Expired |
| OtpLedger.ExpiredThenNotFound | server.js:63-66 | after an Expired verify, the next verify for that mobile returns NotFound |
| OtpLedger.SuccessThenNotFound | server.js:72-73 | after a Success, the next verify for that mobile returns NotFound, so codes are single-use |
| OtpLedger.MismatchThenCorrectSucceeds | server.js:68-70 | after a Mismatch, the stored code submitted within its window succeeds |
| OtpLedger.ReissueInvalidatesFirstCode | server.js:42-45 | after a second issue with a different code, the first code yields Mismatch or Expired and never Success |
| OtpLedger.VerifyIsLocal | server.js:64-72 | a verify never adds, removes or changes the entry of another key |
| OtpLedger.AbsentMobileReadsUndefinedKey | server.js:56-57 | a verify without a mobile reads the entry issued for the mobile text "undefined" |
| RecordStore.NewRecord | server.js:126-135 | name, mobile and amount are kept as given; each of email, coupon and paymentId is its input when truthy and null otherwise; status is its input when truthy and "PENDING" otherwise; verifiedAt is absent |
| RecordStore.Save | server.js:120-126 | the save succeeds exactly when name, mobile and amount are all truthy; a refused save leaves the records unchanged; a saved one adds exactly one record at the end and keeps all earlier records in place |
| RecordStore.FirstMatch | server.js:161 | -1 exactly when no record has the mobile; otherwise the index of a record with the mobile, and no lower index has it |
| RecordStore.FindIndex | server.js:161 | the front-to-back scan returns the findIndex result |
| RecordStore.MarkVerified | server.js:156-168 | a falsy mobile, or one no record has, leaves the records unchanged; PaymentVerified exactly when the mobile is truthy and some record has it, and then only the lowest-index record with that mobile gets status "VERIFIED" and verifiedAt, and the length and every other record are unchanged |
| RecordStore.Students.constructor | server.js:15-17 | when students.json is missing, the server creates it as an empty array |
| RecordStore.Students.SaveStudent | server.js:117-140 | the result and the new records are those of Save; records stay well formed |
| RecordStore.Students.VerifyPayment | server.js:153-170 | the result and the new records are those of MarkVerified; records stay well formed; the verified record, which the message describes, has a truthy mobile and amount |
| RecordStore.OperationsPreserveWellFormed | server.js:120-135 | every record written by save or changed by verify-payment has a truthy name, mobile, amount and status, and each defaulted field holds its input or null |
| RecordStore.SaveRoundTrip | server.js:126-135 | the listing after a save ends with the new record, with name, mobile and amount as given |
| RecordStore.RepeatEnrollmentLeavesNewRecord | server.js:161-168 | when a mobile enrolls again, verify-payment marks its earlier record, and the new record stays as saved |
| RecordStore.FalsyMobileMatchesNothing | server.js:156-164 | no stored record has a falsy mobile, so a search for one finds nothing |
| CouponPolicy.Validate | server.js:82-111 | Invalid exactly when the coupon is not "M09B84", whatever the records say; AlreadyUsed exactly when it is and a record has this mobile and that coupon; Applied otherwise. Refusals return the plan amount; Applied returns 28 whatever the plan |
| CouponPolicy.ApplyKeepsUsage | server.js:87-89 | neither a save nor a payment verification removes a recorded redemption |
| CouponPolicy.UsageIsPermanent | server.js:87-105 | once a mobile has a record with the coupon, after any sequence of saves and verifications, validating it for that mobile returns AlreadyUsed |
| CouponPolicy.ApplyThenSaveThenAlreadyUsed | server.js:99-105 | for a mobile with no redemption on record the first validation is Applied with 28; after a record with the coupon is saved for that mobile, validating the coupon for that mobile returns AlreadyUsed with the plan amount |
| CouponPolicy.UnrelatedSaveKeepsUsage | server.js:87-89 | a saved record for another mobile or without the coupon adds no redemption for a mobile |
| CouponPolicy.UnrelatedSaveKeepsVerdict | server.js:87-89 | saving a record for another mobile or without the coupon does not change the verdict for a mobile |
| CouponPolicy.SaveDoesNotEnforceSingleUse | server.js:120-135 | two saves for one mobile that both carry the coupon are both accepted |
| OtpAsWritten.VerifyAsWritten | server.js:57-73 | as written: on an own key it agrees with Verify; on an inherited Object.prototype name it never removes anything and succeeds exactly when the request has no otp |
| OtpAsWritten.InheritedNameBypassesOtp | server.js:57-73 | on an empty ledger, mobile "constructor" without an otp succeeds as written and returns NotFound in the corrected ledger |
| OtpAsWritten.CorrectedNeedsIssuedCode | server.js:68-73 | in the corrected ledger, a success needs an issued entry for that key and its stored code |

## Findings

| source | as written | input that shows it | evidently intended | confidence | as-written member | corrected member |
|---|---|---|---|---|---|---|
| server.js:57-73 | `otpStore` is a plain object, so `otpStore[mobile]` also finds inherited members of Object.prototype. For these, `expiresAt` and `otp` are undefined. | on a fresh server, POST `/verify-otp` with `{"mobile": "constructor"}` and no `otp` returns `{success: true}` | only a code issued for that mobile authenticates, so the answer is "OTP not found" | high (not executed) | OtpAsWritten.InheritedNameBypassesOtp | OtpAsWritten.CorrectedNeedsIssuedCode |

## Left out

- HTTP plumbing (Express routing, CORS, body parsing, `res.json`, `app.listen`). Each handler's response is a result datatype.
- Reading and writing `students.json` and its JSON encoding (server.js:12-17, 85, 124, 137, 160, 170). The file is an in-memory sequence. Failures of the file system or of `JSON.parse` are not modelled.
- `Math.random()` and the floating-point code arithmetic. The code is a parameter in 100000..999999.
- `Date.now()` and `new Date().toISOString()`. They are parameters, and the ISO timestamps are opaque strings.
- The WhatsApp message and URL built after verify-payment (server.js:173-186). This is a string template over `encodeURIComponent`. `PaymentVerified` returns the index of the record the message would describe.
- `console.log` of the code, the admin listing `/students` (a plain read of the file) and `process.env.PORT`.
- Races between concurrent requests, including the lost update from reading and rewriting the whole file and the window between validating and saving a coupon. Each request is modelled as one atomic step.
- JavaScript numbers are modelled as integers. NaN, fractions, negative zero and the exponent form of `toString` for magnitudes of 10^21 and more are out of scope. JSON objects and arrays as field values are out of scope too.
- OtpLedger.Issue: a send-otp for the mobile "__proto__" is modelled as storing an own entry, as the corrected ledger would. As written, that assignment replaces the object's prototype instead.
- OtpAsWritten.VerifyAsWritten: models only stores without an own "__proto__" entry, for the reason given in the line above.
- OtpLedger.Verify: reads only keys the store owns, as do `OtpLedger.Ledger.VerifyOtp` and every lemma built on them. This is the corrected lookup. As written, a mobile named after an inherited Object.prototype member ("constructor", "toString", ...) does not give NotFound. That behaviour is modelled by `OtpAsWritten.VerifyAsWritten` (see Findings).
