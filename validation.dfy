/** The request rules of src/services/Validation.js that carry logic of their own:
    the password, mobile and e-mail rules, the product fields (stock, price,
    subcategories, image paths), the cart item and the order schemas. Each rule is a
    predicate or function over the submitted value; Joi's own `email()` and `uri()`
    checks are outside the model (the e-mail verdict is an input). */
module Validation {
  import opened Wrappers
  import opened Text

  // ---------------------------------------------------------------------------
  // Password (Validation.js:67-76)
  // ---------------------------------------------------------------------------

  /** The special characters `@$!%*?&` of the password pattern. */
  predicate IsPasswordSpecial(c: char)
  {
    c == '@' || c == '$' || c == '!' || c == '%' || c == '*' || c == '?' || c == '&'
  }

  /** The class `[A-Za-z\d@$!%*?&]`. */
  predicate IsPasswordChar(c: char)
  {
    IsLower(c) || IsUpper(c) || IsDigit(c) || IsPasswordSpecial(c)
  }

  /** What `.min(8)` and the pattern
      `^(?=.*[a-z])(?=.*[A-Z])(?=.*\d)(?=.*[@$!%*?&])[A-Za-z\d@$!%*?&]{8,}$` say
      together: eight or more allowed characters, with a lower-case letter, an
      upper-case letter, a digit and a special character among them. */
  predicate PasswordRule(s: string)
  {
    && |s| >= 8
    && (exists i :: 0 <= i < |s| && IsLower(s[i]))
    && (exists i :: 0 <= i < |s| && IsUpper(s[i]))
    && (exists i :: 0 <= i < |s| && IsDigit(s[i]))
    && (exists i :: 0 <= i < |s| && IsPasswordSpecial(s[i]))
    && (forall i :: 0 <= i < |s| ==> IsPasswordChar(s[i]))
  }

  /** Which of the four required kinds a scan has seen. */
  datatype Seen = Seen(lower: bool, upper: bool, digit: bool, special: bool)

  /** A single pass over the password, as a matcher runs the pattern: `None` at the
      first character outside the class, otherwise the kinds seen. */
  function ScanPassword(s: string): (r: Option<Seen>)
    ensures r.Some? <==> forall i :: 0 <= i < |s| ==> IsPasswordChar(s[i])
    ensures r.Some? ==> (r.value.lower <==> exists i :: 0 <= i < |s| && IsLower(s[i]))
    ensures r.Some? ==> (r.value.upper <==> exists i :: 0 <= i < |s| && IsUpper(s[i]))
    ensures r.Some? ==> (r.value.digit <==> exists i :: 0 <= i < |s| && IsDigit(s[i]))
    ensures r.Some? ==> (r.value.special <==> exists i :: 0 <= i < |s| && IsPasswordSpecial(s[i]))
  {
    if s == [] then Some(Seen(false, false, false, false))
    else if !IsPasswordChar(s[0]) then None
    else match ScanPassword(s[1..])
      case None =>
        assert !IsPasswordChar(s[1..][0]) || exists i :: 0 <= i < |s[1..]| && !IsPasswordChar(s[1..][i]);
        None
      case Some(seen) =>
        var c := s[0];
        assert forall i :: 0 < i < |s| ==> s[i] == s[1..][i - 1];
        Some(Seen(seen.lower || IsLower(c), seen.upper || IsUpper(c),
                  seen.digit || IsDigit(c), seen.special || IsPasswordSpecial(c)))
  }

  /** The password check as a single scan agrees with the rule. */
  function CheckPassword(s: string): (ok: bool)
    ensures ok <==> PasswordRule(s)
  {
    |s| >= 8 &&
    match ScanPassword(s)
    case None => false
    case Some(seen) => seen.lower && seen.upper && seen.digit && seen.special
  }

  // ---------------------------------------------------------------------------
  // Fixed-length digit strings: mobile (10 digits) and postal code (6 digits)
  // ---------------------------------------------------------------------------

  function Pow10(n: nat): (p: nat)
    ensures p >= 1
  {
    if n == 0 then 1 else 10 * Pow10(n - 1)
  }

  /** The `n`-digit zero-padded decimal form of `v` (its last `n` digits). */
  function PadDigits(v: nat, n: nat): (s: string)
    ensures |s| == n && AllDigits(s)
  {
    if n == 0 then "" else PadDigits(v / 10, n - 1) + [DigitChar(v % 10)]
  }

  /** `^[0-9]{10}$` (Validation.js:78-84). */
  predicate ValidMobile(s: string) { |s| == 10 && AllDigits(s) }

  /** `^\d{6}$` (Validation.js:318). */
  predicate ValidPostalCode(s: string) { |s| == 6 && AllDigits(s) }

  lemma {:induction false} DecimalValueBelow(s: string)
    requires AllDigits(s)
    ensures DecimalValue(s) < Pow10(|s|)
  {
    if s != [] {
      DecimalValueBelow(s[..|s| - 1]);
    }
  }

  lemma {:induction false} PadDigitsValue(v: nat, n: nat)
    requires v < Pow10(n)
    ensures DecimalValue(PadDigits(v, n)) == v
  {
    if n > 0 {
      var p := Pow10(n - 1);
      assert 10 * (v / 10) <= v < 10 * p;
      PadDigitsValue(v / 10, n - 1);
      var s := PadDigits(v, n);
      assert s[..|s| - 1] == PadDigits(v / 10, n - 1);
    }
  }

  lemma {:induction false} PadDecimalValue(s: string)
    requires AllDigits(s)
    ensures PadDigits(DecimalValue(s), |s|) == s
  {
    if s != [] {
      var init := s[..|s| - 1];
      var v := DecimalValue(s);
      PadDecimalValue(init);
      assert v / 10 == DecimalValue(init) && v % 10 == DigitValue(s[|s| - 1]);
      assert init + [s[|s| - 1]] == s;
    }
  }

  /** The `n`-digit strings are exactly the padded forms of the numbers below 10^n:
      every such string reads as a number below 10^n and pads back to itself, and
      every number below 10^n pads to such a string that reads back as it. */
  lemma FixedDigitsRoundTrip(s: string, v: nat, n: nat)
    ensures |s| == n && AllDigits(s) ==> DecimalValue(s) < Pow10(n) && PadDigits(DecimalValue(s), n) == s
    ensures v < Pow10(n) ==> |PadDigits(v, n)| == n && AllDigits(PadDigits(v, n)) && DecimalValue(PadDigits(v, n)) == v
  {
    if |s| == n && AllDigits(s) {
      DecimalValueBelow(s);
      PadDecimalValue(s);
    }
    if v < Pow10(n) {
      PadDigitsValue(v, n);
    }
  }

  /** A mobile number is the ten-digit form of a number below 10^10: the pattern
      accepts exactly the zero-padded texts of those numbers, each read back. */
  lemma MobileNumbers(s: string, v: nat)
    ensures ValidMobile(s) ==> DecimalValue(s) < Pow10(10) && PadDigits(DecimalValue(s), 10) == s
    ensures v < Pow10(10) ==> ValidMobile(PadDigits(v, 10)) && DecimalValue(PadDigits(v, 10)) == v
  {
    FixedDigitsRoundTrip(s, v, 10);
  }

  /** A postal code is the six-digit form of a number below 10^6, in the same way. */
  lemma PostalCodes(s: string, v: nat)
    ensures ValidPostalCode(s) ==> DecimalValue(s) < Pow10(6) && PadDigits(DecimalValue(s), 6) == s
    ensures v < Pow10(6) ==> ValidPostalCode(PadDigits(v, 6)) && DecimalValue(PadDigits(v, 6)) == v
  {
    FixedDigitsRoundTrip(s, v, 6);
  }

  // ---------------------------------------------------------------------------
  // E-mail (Validation.js:51-65)
  // ---------------------------------------------------------------------------

  datatype EmailVerdict = EmailOk(value: string) | MustBeLowercase | InvalidEmailFormat

  predicate HasUpper(s: string) { exists i :: 0 <= i < |s| && IsUpper(s[i]) }

  /** The e-mail rule as the validation middleware runs it, with `convert: true`:
      Joi's string coercion applies `lowercase()` before any rule, so the custom
      upper-case test sees the lowered value; `formatOk` is the verdict of Joi's
      `email()` on that value. The custom test can never fire, and the accepted
      value is the lowered input. */
  function CheckEmail(s: string, formatOk: bool): (r: EmailVerdict)
    ensures r != MustBeLowercase
    ensures r.EmailOk? <==> formatOk
    ensures r.EmailOk? ==> |r.value| == |s| && !HasUpper(r.value) && Lower(r.value) == Lower(s)
  {
    var v := Lower(s);
    LoweredHasNoUpper(s);
    LowerIdempotent(s);
    if HasUpper(v) then MustBeLowercase
    else if formatOk then EmailOk(v) else InvalidEmailFormat
  }

  lemma LoweredHasNoUpper(s: string)
    ensures !HasUpper(Lower(s))
  {
    assert forall i :: 0 <= i < |s| ==> !IsUpper(Lower(s)[i]);
  }

  /** The rule the custom test was written for: an address holding a capital is
      refused with "Email must be in lowercase letters", and any other address is
      judged by `email()` and kept as sent. */
  function CheckEmailRejectingUpper(s: string, formatOk: bool): (r: EmailVerdict)
    ensures HasUpper(s) ==> r == MustBeLowercase
    ensures !HasUpper(s) ==> Lower(s) == s
    ensures !HasUpper(s) && formatOk ==> r == EmailOk(s)
    ensures !HasUpper(s) && !formatOk ==> r == InvalidEmailFormat
  {
    if HasUpper(s) then MustBeLowercase
    else
      assert forall i :: 0 <= i < |s| ==> LowerChar(s[i]) == s[i];
      if formatOk then EmailOk(Lower(s)) else InvalidEmailFormat
  }

  /** The two rules part exactly on addresses with a capital: those are accepted
      lowered by the middleware and refused by the rule as intended; any other
      address gets the same verdict from both. */
  lemma EmailCapitalsAccepted(s: string, formatOk: bool)
    ensures HasUpper(s) && formatOk ==>
      CheckEmail(s, formatOk) == EmailOk(Lower(s)) && CheckEmailRejectingUpper(s, formatOk) == MustBeLowercase
    ensures !HasUpper(s) ==> CheckEmail(s, formatOk) == CheckEmailRejectingUpper(s, formatOk)
  {
    LoweredHasNoUpper(s);
    if !HasUpper(s) {
      assert forall i :: 0 <= i < |s| ==> LowerChar(s[i]) == s[i];
    }
  }

  // ---------------------------------------------------------------------------
  // Product fields (Validation.js:115-133, 143-189)
  // ---------------------------------------------------------------------------

  /** `stock`: `number().integer().min(0)`; a value that is not a whole number is `None`. */
  predicate ValidStock(stock: Option<int>) { stock.Some? && stock.value >= 0 }

  /** `price`: `number().min(0)`, in minor units. */
  predicate ValidPrice(price: int) { price >= 0 }

  /** The two forms `subcategories` may take in a request. */
  datatype SubcategoryInput = ListForm(items: seq<string>) | TextForm(text: string)

  const MaxSubcategories: nat := 5

  function Normalize(s: string): string { Lower(Trim(s)) }

  /** A non-blank entry in normal form: trimmed and lower-case. */
  predicate NormalEntry(s: string) { s != [] && Trimmed(s) && Lower(s) == s }

  /** The normalised form of an entry is trimmed and lower-case, and it holds a
      character only if the entry did. */
  lemma {:induction false} NormalizeShape(s: string)
    ensures Trimmed(Normalize(s)) && Lower(Normalize(s)) == Normalize(s)
    ensures |Normalize(s)| <= |s|
    ensures Contains(Normalize(s), ',') ==> Contains(s, ',')
  {
    LowerKeepsTrimmed(Trim(s));
    LowerIdempotent(Trim(s));
    var t := TrimEnd(TrimStart(s));
    var a := TrimStart(s);
    if Contains(Normalize(s), ',') {
      var i :| 0 <= i < |Normalize(s)| && Normalize(s)[i] == ',';
      assert LowerChar(t[i]) == ',';
      assert t[i] == ',';
      assert a[i] == ',';
      assert s[|s| - |a| + i] == ',';
    }
  }

  /** `split(',').map(s => s.trim().toLowerCase()).filter(s => s.length > 0)`. */
  function NormalizeParts(parts: seq<string>): (r: seq<string>)
    ensures |r| <= |parts|
    ensures forall k :: 0 <= k < |r| ==> NormalEntry(r[k])
  {
    if parts == [] then []
    else
      NormalizeShape(parts[0]);
      var head := Normalize(parts[0]);
      var rest := NormalizeParts(parts[1..]);
      if head == [] then rest
      else
        ConsNormal(head, rest);
        [head] + rest
  }

  lemma ConsNormal(head: string, rest: seq<string>)
    requires NormalEntry(head) && forall k :: 0 <= k < |rest| ==> NormalEntry(rest[k])
    ensures forall k :: 0 <= k < |[head] + rest| ==> NormalEntry(([head] + rest)[k])
  {
    forall k | 0 <= k < |[head] + rest| ensures NormalEntry(([head] + rest)[k]) {
      if k > 0 { assert ([head] + rest)[k] == rest[k - 1]; }
    }
  }

  /** The value the `subcategories` rule turns a request into, or `None` when the
      rule rejects it. A list needs 1 to 5 entries, none blank; a text needs a
      comma, and the non-blank pieces it splits into must number 1 to 5. */
  function NormalizeSubcategories(input: SubcategoryInput): (r: Option<seq<string>>)
    ensures r.Some? ==> 1 <= |r.value| <= MaxSubcategories
    ensures r.Some? ==> forall k :: 0 <= k < |r.value| ==> NormalEntry(r.value[k])
    ensures input.TextForm? && !Contains(input.text, ',') ==> r.None?
  {
    match input
    case ListForm(items) =>
      if 1 <= |items| <= MaxSubcategories && forall k :: 0 <= k < |items| ==> Normalize(items[k]) != [] then
        var r := seq(|items|, k requires 0 <= k < |items| => Normalize(items[k]));
        assert forall k :: 0 <= k < |r| ==> NormalEntry(r[k]) by {
          forall k | 0 <= k < |r| ensures NormalEntry(r[k]) { NormalizeShape(items[k]); }
        }
        Some(r)
      else None
    case TextForm(text) =>
      if !Contains(text, ',') then None
      else
        var r := NormalizeParts(Split(text, ','));
        if 1 <= |r| <= MaxSubcategories then Some(r) else None
  }

  lemma {:induction false} NormalizePartsNoComma(parts: seq<string>)
    requires forall k :: 0 <= k < |parts| ==> !Contains(parts[k], ',')
    ensures forall k :: 0 <= k < |NormalizeParts(parts)| ==> !Contains(NormalizeParts(parts)[k], ',')
  {
    if parts != [] {
      var head, rest := Normalize(parts[0]), NormalizeParts(parts[1..]);
      NormalizeShape(parts[0]);
      assert forall k :: 0 <= k < |parts[1..]| ==> !Contains(parts[1..][k], ',') by {
        forall k | 0 <= k < |parts[1..]| ensures !Contains(parts[1..][k], ',') { assert parts[1..][k] == parts[k + 1]; }
      }
      NormalizePartsNoComma(parts[1..]);
      if head != [] {
        assert NormalizeParts(parts) == [head] + rest;
        forall k | 0 <= k < |[head] + rest| ensures !Contains(([head] + rest)[k], ',') {
          if k > 0 { assert ([head] + rest)[k] == rest[k - 1]; }
        }
      } else {
        assert NormalizeParts(parts) == rest;
      }
    }
  }

  /** The entries of a text form never contain a comma. */
  lemma TextFormEntriesHaveNoComma(text: string)
    requires NormalizeSubcategories(TextForm(text)).Some?
    ensures forall k :: 0 <= k < |NormalizeSubcategories(TextForm(text)).value| ==>
      !Contains(NormalizeSubcategories(TextForm(text)).value[k], ',')
  {
    SplitPartsHaveNoSeparator(text, ',');
    NormalizePartsNoComma(Split(text, ','));
  }

  /** An entry that is already normalised is kept as it is. */
  lemma NormalizeFixed(s: string)
    requires NormalEntry(s)
    ensures Normalize(s) == s
  {
    TrimOfTrimmed(s);
  }

  lemma {:induction false} NormalizePartsFixed(parts: seq<string>)
    requires forall k :: 0 <= k < |parts| ==> NormalEntry(parts[k])
    ensures NormalizeParts(parts) == parts
  {
    if parts != [] {
      NormalizeFixed(parts[0]);
      NormalizePartsFixed(parts[1..]);
      assert [parts[0]] + parts[1..] == parts;
    }
  }

  /** Normalising is idempotent on lists, and on comma-joined text exactly when
      there are at least two entries: a single entry joins to a text without a
      comma, which the text form rejects. */
  lemma NormalizeIdempotent(r: seq<string>)
    requires 1 <= |r| <= MaxSubcategories
    requires forall k :: 0 <= k < |r| ==> NormalEntry(r[k]) && !Contains(r[k], ',')
    ensures NormalizeSubcategories(ListForm(r)) == Some(r)
    ensures |r| >= 2 ==> NormalizeSubcategories(TextForm(Join(r, ','))) == Some(r)
    ensures |r| == 1 ==> NormalizeSubcategories(TextForm(Join(r, ','))) == None
  {
    ListFormFixed(r);
    if |r| >= 2 {
      TextFormFixed(r);
    }
  }

  /** A list of normal entries is read back as it is. */
  lemma ListFormFixed(r: seq<string>)
    requires 1 <= |r| <= MaxSubcategories
    requires forall k :: 0 <= k < |r| ==> NormalEntry(r[k])
    ensures NormalizeSubcategories(ListForm(r)) == Some(r)
  {
    assert forall k :: 0 <= k < |r| ==> Normalize(r[k]) == r[k] by {
      forall k | 0 <= k < |r| ensures Normalize(r[k]) == r[k] { NormalizeFixed(r[k]); }
    }
    assert forall k :: 0 <= k < |r| ==> Normalize(r[k]) != [];
    assert seq(|r|, k requires 0 <= k < |r| => Normalize(r[k])) == r;
  }

  /** The comma-join of two or more comma-free normal entries is read back as
      those entries. */
  lemma TextFormFixed(r: seq<string>)
    requires 2 <= |r| <= MaxSubcategories
    requires forall k :: 0 <= k < |r| ==> NormalEntry(r[k]) && !Contains(r[k], ',')
    ensures NormalizeSubcategories(TextForm(Join(r, ','))) == Some(r)
  {
    var text := Join(r, ',');
    assert Contains(text, ',') by {
      assert text == r[0] + [','] + Join(r[1..], ',');
      assert text[|r[0]|] == ',';
    }
    SplitJoin(r, ',');
    NormalizePartsFixed(r);
  }

  /** `images` entries: `^\/uploads\/[a-zA-Z0-9-]+\.(png|jpg|jpeg|webp)$` with the
      `i` flag, so the comparison is on the lower-cased path. */
  predicate IsImageNameChar(c: char) { IsLower(c) || IsDigit(c) || c == '-' }

  predicate IsImageExtension(ext: string) { ext == "png" || ext == "jpg" || ext == "jpeg" || ext == "webp" }

  predicate ImagePathRule(path: string) { LowerImagePath(Lower(path)) }

  /** The pattern on a lower-cased path. */
  predicate LowerImagePath(t: string)
  {
    exists e :: 10 <= e < |t|
      && t[..9] == "/uploads/"
      && t[e] == '.'
      && IsImageExtension(t[e + 1..])
      && (forall i :: 9 <= i < e ==> IsImageNameChar(t[i]))
  }

  /** A path built as `/uploads/<name>.<ext>` from a name of letters, digits and
      dashes and an accepted extension (in any case) passes the rule. */
  lemma ImagePathAccepted(name: string, ext: string)
    requires name != [] && forall i :: 0 <= i < |name| ==> IsImageNameChar(LowerChar(name[i]))
    requires IsImageExtension(Lower(ext))
    ensures ImagePathRule("/uploads/" + name + "." + ext)
  {
    var ln, le := Lower(name), Lower(ext);
    assert Lower("/uploads/" + name + "." + ext) == "/uploads/" + ln + "." + le by {
      UploadsDirIsLower();
      LowerOfPieces("/uploads/", name, ".", ext);
    }
    assert LowerImagePath("/uploads/" + ln + "." + le) by {
      assert forall i :: 0 <= i < |ln| ==> IsImageNameChar(ln[i]);
      LoweredPiecesMatch(ln, le);
    }
  }

  lemma UploadsDirIsLower()
    ensures Lower("/uploads/") == "/uploads/" && Lower(".") == "."
  {
    var d := "/uploads/";
    assert forall i :: 0 <= i < |d| ==> !IsUpper(d[i]);
  }

  /** Lower-casing a path whose fixed parts are already lower-case only changes
      the variable parts. */
  lemma LowerOfPieces(a: string, b: string, c: string, d: string)
    requires Lower(a) == a && Lower(c) == c
    ensures Lower(a + b + c + d) == a + Lower(b) + c + Lower(d)
  {
    LowerSplitsAt(a, b);
    LowerSplitsAt(a + b, c);
    LowerSplitsAt(a + b + c, d);
  }

  /** `Lower` works character by character, so it distributes over concatenation. */
  lemma LowerSplitsAt(a: string, b: string)
    ensures Lower(a + b) == Lower(a) + Lower(b)
  {
    assert forall i :: 0 <= i < |a| ==> (a + b)[i] == a[i];
    assert forall i :: |a| <= i < |a + b| ==> (a + b)[i] == b[i - |a|];
  }

  lemma LoweredPiecesMatch(ln: string, le: string)
    requires ln != [] && (forall i :: 0 <= i < |ln| ==> IsImageNameChar(ln[i])) && IsImageExtension(le)
    ensures LowerImagePath("/uploads/" + ln + "." + le)
  {
    var t := "/uploads/" + ln + "." + le;
    var e := 9 + |ln|;
    assert t[..9] == "/uploads/";
    assert t[e] == '.';
    assert t[e + 1..] == le;
    assert forall i :: 9 <= i < e ==> t[i] == ln[i - 9];
  }

  // ---------------------------------------------------------------------------
  // Cart and order schemas (Validation.js:279-326)
  // ---------------------------------------------------------------------------

  /** `^[0-9a-fA-F]{24}$`: the text form of a 12-byte ObjectId. */
  predicate HexObjectId(s: string) { |s| == 24 && AllHex(s) }

  function HexDigit(d: nat): (c: char)
    requires d < 16
    ensures IsHexDigit(c) && !IsUpper(c)
  {
    if d < 10 then DigitChar(d) else ('a' as int + d - 10) as char
  }

  /** The lower-case hex text of a byte string, as an ObjectId prints itself. */
  function HexOf(bytes: seq<nat>): (s: string)
    requires forall i :: 0 <= i < |bytes| ==> bytes[i] < 256
    ensures |s| == 2 * |bytes| && AllHex(s)
  {
    if bytes == [] then "" else [HexDigit(bytes[0] / 16), HexDigit(bytes[0] % 16)] + HexOf(bytes[1..])
  }

  /** Every 12-byte id the database generates prints as text the cart schema
      accepts, already in lower case: its own stored form. */
  lemma GeneratedIdsAccepted(bytes: seq<nat>)
    requires |bytes| == 12 && forall i :: 0 <= i < |bytes| ==> bytes[i] < 256
    ensures HexObjectId(HexOf(bytes))
    ensures Lower(HexOf(bytes)) == HexOf(bytes)
  {
    HexOfIsLower(bytes);
  }

  lemma {:induction false} HexOfIsLower(bytes: seq<nat>)
    requires forall i :: 0 <= i < |bytes| ==> bytes[i] < 256
    ensures Lower(HexOf(bytes)) == HexOf(bytes)
  {
    if bytes != [] {
      HexOfIsLower(bytes[1..]);
      LowerSplitsAt([HexDigit(bytes[0] / 16), HexDigit(bytes[0] % 16)], HexOf(bytes[1..]));
    }
  }

  /** `cartSchemas.addItem`: the product id pattern and `integer().min(1)`; a
      quantity that is not a whole number is `None`. */
  predicate ValidAddItem(product: string, quantity: Option<int>)
  {
    HexObjectId(product) && quantity.Some? && quantity.value >= 1
  }

  /** A shipping address as submitted; `None` marks a missing field. */
  datatype AddressInput = AddressInput(street: Option<string>, city: Option<string>,
                                       state: Option<string>, postalCode: Option<string>)

  /** A required Joi string: present and not empty. */
  predicate RequiredText(v: Option<string>) { v.Some? && v.value != "" }

  /** `orderSchemas.create`: street, city and state required, a six-digit postal code. */
  predicate ValidShippingAddress(a: AddressInput)
  {
    RequiredText(a.street) && RequiredText(a.city) && RequiredText(a.state)
    && a.postalCode.Some? && ValidPostalCode(a.postalCode.value)
  }

  /** The report of one field: its key when it fails, nothing otherwise. */
  function FieldReport(ok: bool, key: string): (r: seq<string>)
    ensures ok <==> r == []
    ensures forall x :: x in r <==> !ok && x == key
  {
    if ok then [] else [key]
  }

  /** The field keys of the 400 "Validation failed" reply for an address: with
      `abortEarly: false` every failing field is reported, in the schema's order. */
  function AddressErrors(a: AddressInput): (r: seq<string>)
    ensures r == [] <==> ValidShippingAddress(a)
    ensures "street" in r <==> !RequiredText(a.street)
    ensures "city" in r <==> !RequiredText(a.city)
    ensures "state" in r <==> !RequiredText(a.state)
    ensures "postalCode" in r <==> !(a.postalCode.Some? && ValidPostalCode(a.postalCode.value))
  {
    var postalOk := a.postalCode.Some? && ValidPostalCode(a.postalCode.value);
    var s1, s2, s3, s4 := FieldReport(RequiredText(a.street), "street"), FieldReport(RequiredText(a.city), "city"),
                          FieldReport(RequiredText(a.state), "state"), FieldReport(postalOk, "postalCode");
    assert "street" != "city" && "street" != "state" && "street" != "postalCode";
    assert "city" != "state" && "city" != "postalCode" && "state" != "postalCode";
    assert forall x :: x in s1 + s2 + s3 + s4 <==> x in s1 || x in s2 || x in s3 || x in s4;
    s1 + s2 + s3 + s4
  }
}
