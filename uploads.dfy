/** The upload helpers of src/utils/FileUploads.js: the name sanitiser, the
    generated file name of a stored upload and the MIME-type filter. The clock,
    the random suffix and `path.extname` of the original name are parameters. */
module Uploads {
  import opened Wrappers
  import opened Text

  // ---------------------------------------------------------------------------
  // sanitizeName
  // ---------------------------------------------------------------------------

  /** The characters `/[^a-zA-Z0-9-_]/` leaves alone. */
  predicate Allowed(c: char) { IsLower(c) || IsUpper(c) || IsDigit(c) || c == '-' || c == '_' }

  /** The characters a sanitised name consists of. */
  predicate SafeChar(c: char) { IsLower(c) || IsDigit(c) || c == '-' || c == '_' }

  predicate AllSafe(s: string) { forall i :: 0 <= i < |s| ==> SafeChar(s[i]) }

  /** No two consecutive dashes. */
  predicate NoDoubleDash(s: string) { forall i :: 0 <= i < |s| - 1 ==> !(s[i] == '-' && s[i + 1] == '-') }

  const MaxNameLength: nat := 50
  const UnknownName: string := "unknown"

  /** `.replace(/[^a-zA-Z0-9-_]/g, '-')`: every other character becomes a dash. */
  function MaskDisallowed(s: string): (r: string)
    ensures |r| == |s|
    ensures forall i :: 0 <= i < |s| ==> r[i] == (if Allowed(s[i]) then s[i] else '-')
  {
    if s == [] then [] else [if Allowed(s[0]) then s[0] else '-'] + MaskDisallowed(s[1..])
  }

  /** `.replace(/-+/g, '-')`: every run of dashes becomes one dash. */
  function CollapseDashes(s: string): (r: string)
    ensures |r| <= |s|
    ensures s != [] ==> r != [] && r[0] == s[0]
  {
    if |s| < 2 then s
    else if s[0] == '-' && s[1] == '-' then CollapseDashes(s[1..])
    else [s[0]] + CollapseDashes(s[1..])
  }

  predicate AllAllowed(s: string) { forall i :: 0 <= i < |s| ==> Allowed(s[i]) }

  /** After collapsing there are no two dashes in a row, no character outside
      the allowed set appears, and a string that had no doubled dash is left as
      it was. */
  lemma {:induction false} CollapseDashesEffect(s: string)
    ensures NoDoubleDash(CollapseDashes(s))
    ensures AllAllowed(s) ==> AllAllowed(CollapseDashes(s))
    ensures NoDoubleDash(s) ==> CollapseDashes(s) == s
    decreases |s|
  {
    if |s| >= 2 {
      var tail := s[1..];
      CollapseDashesEffect(tail);
      assert AllAllowed(s) ==> AllAllowed(tail) by {
        if AllAllowed(s) {
          forall i | 0 <= i < |tail| ensures Allowed(tail[i]) { assert tail[i] == s[i + 1]; }
        }
      }
      assert NoDoubleDash(s) ==> NoDoubleDash(tail) by {
        if NoDoubleDash(s) {
          forall i | 0 <= i < |tail| - 1 ensures !(tail[i] == '-' && tail[i + 1] == '-') {
            assert tail[i] == s[i + 1] && tail[i + 1] == s[i + 2];
          }
        }
      }
      if !(s[0] == '-' && s[1] == '-') {
        var rest := CollapseDashes(tail);
        var r := [s[0]] + rest;
        assert CollapseDashes(s) == r;
        assert forall i :: 1 <= i < |r| ==> r[i] == rest[i - 1];
        if NoDoubleDash(s) {
          assert r == [s[0]] + tail;
          assert [s[0]] + tail == s;
        }
      }
    }
  }

  /** `.substring(0, 50)`. */
  function Truncate(s: string): (r: string)
    ensures |r| <= MaxNameLength && |r| <= |s|
    ensures r == s[..|r|]
    ensures |s| <= MaxNameLength ==> r == s
  {
    if |s| <= MaxNameLength then s else s[..MaxNameLength]
  }

  /** `sanitizeName(name)`; `None` and `Some("")` are the falsy names. */
  function SanitizeName(name: Option<string>): (r: string)
    ensures name.None? || name.value == "" ==> r == UnknownName
    ensures |r| <= MaxNameLength
  {
    if name.None? || name.value == "" then UnknownName
    else Truncate(Lower(CollapseDashes(MaskDisallowed(name.value))))
  }

  /** What `sanitizeName` promises: a non-empty name of at most 50 characters
      from `a-z 0-9 - _` with no doubled dash; a falsy name gives "unknown". */
  lemma SanitizeNameSafe(name: Option<string>)
    ensures var r := SanitizeName(name);
      && 1 <= |r| <= MaxNameLength && AllSafe(r) && NoDoubleDash(r)
      && (name.None? || name.value == "" ==> r == UnknownName)
  {
    if name.Some? && name.value != "" {
      var m := MaskDisallowed(name.value);
      var c := CollapseDashes(m);
      CollapseDashesEffect(m);
      var l := Lower(c);
      assert AllAllowed(m);
      assert forall i :: 0 <= i < |l| ==> l[i] == LowerChar(c[i]);
      assert NoDoubleDash(l) by {
        forall i | 0 <= i < |l| - 1 ensures !(l[i] == '-' && l[i + 1] == '-') {
          assert l[i] == LowerChar(c[i]) && l[i + 1] == LowerChar(c[i + 1]);
        }
      }
      var r := Truncate(l);
      assert forall i :: 0 <= i < |r| ==> r[i] == l[i];
    } else {
      assert AllSafe(UnknownName) by {
        assert forall i :: 0 <= i < |UnknownName| ==> IsLower(UnknownName[i]);
      }
    }
  }

  /** Each step leaves a string already in the safe form as it is. */
  lemma SafeIsFixed(s: string)
    requires 1 <= |s| <= MaxNameLength && AllSafe(s) && NoDoubleDash(s)
    ensures SanitizeName(Some(s)) == s
  {
    assert MaskDisallowed(s) == s;
    CollapseDashesEffect(s);
    assert Lower(s) == s by {
      assert forall i :: 0 <= i < |s| ==> LowerChar(s[i]) == s[i];
    }
  }

  /** Sanitising a sanitised name changes nothing. */
  lemma SanitizeNameIdempotent(name: Option<string>)
    ensures SanitizeName(Some(SanitizeName(name))) == SanitizeName(name)
  {
    SanitizeNameSafe(name);
    SafeIsFixed(SanitizeName(name));
  }

  // ---------------------------------------------------------------------------
  // generateFilename
  // ---------------------------------------------------------------------------

  /** The part of `req.account` the name reads. `name` is `""` when the account
      has none; `licenseID` is read but does not change the result. */
  datatype Uploader = Uploader(role: string, name: string, email: string, licenseID: Option<string>)

  /** `account.name || account.email.split('@')[0]`. */
  function DisplayName(a: Uploader): string
  {
    if a.name != "" then a.name else Split(a.email, '@')[0]
  }

  /** The identifier of the uploading account. */
  function Identifier(account: Option<Uploader>, timestamp: nat): (id: string)
    ensures AllSafe(id)
  {
    if account.None? then UnknownName
    else
      var a := account.value;
      SanitizeNameSafe(Some(DisplayName(a)));
      var part := SanitizeName(Some(DisplayName(a)));
      if a.role == "user" then SafeJoin("user", part)
      else if a.role == "seller" then
        (if a.licenseID.Some? && a.licenseID.value != "" then SafeJoin("seller", part) else SafeJoin("seller", part))
      else if a.role == "admin" then SafeJoin("admin", part)
      else SafeJoin("unknown", NatToString(timestamp))
  }

  /** `${a}-${b}` of two safe strings is safe. */
  function SafeJoin(a: string, b: string): (r: string)
    requires AllSafe(a) && (AllSafe(b) || AllDigits(b))
    ensures AllSafe(r) && r == a + "-" + b
  {
    var r := a + "-" + b;
    assert forall i :: |a| + 1 <= i < |r| ==> r[i] == b[i - |a| - 1];
    r
  }

  /** `file.fieldname === 'profileImage' ? 'profile' : 'product'`. */
  function Prefix(fieldname: string): (p: string)
    ensures p == "profile" <==> fieldname == "profileImage"
    ensures p == "profile" || p == "product"
  {
    if fieldname == "profileImage" then "profile" else "product"
  }

  /** `${prefix}-${identifier}-${timestamp}-${random}${ext}`: the name keeps the
      upload's extension at its end, right after the random part. */
  function GenerateFilename(account: Option<Uploader>, fieldname: string, timestamp: nat, random: string, ext: string): (r: string)
    ensures |r| > |random| + |ext|
    ensures r[|r| - |ext|..] == ext && r[|r| - |ext| - |random|..|r| - |ext|] == random
  {
    var stem := Prefix(fieldname) + "-" + Identifier(account, timestamp) + "-" + NatToString(timestamp) + "-";
    assert stem + random + ext == stem + (random + ext);
    stem + random + ext
  }

  /** The identifier by account: "unknown" without an account, `<role>-<sanitized
      name>` for the three account types (whatever the seller's licence), and
      `unknown-<timestamp>` for any other role. */
  lemma IdentifierCases(account: Option<Uploader>, timestamp: nat)
    ensures account.None? ==> Identifier(account, timestamp) == UnknownName
    ensures account.Some? && account.value.role in {"user", "seller", "admin"} ==>
      Identifier(account, timestamp) == account.value.role + "-" + SanitizeName(Some(DisplayName(account.value)))
    ensures account.Some? && account.value.role !in {"user", "seller", "admin"} ==>
      Identifier(account, timestamp) == "unknown-" + NatToString(timestamp)
    ensures account.Some? ==> forall l :: Identifier(Some(account.value.(licenseID := l)), timestamp) == Identifier(account, timestamp)
  {
  }

  /** Everything before the random suffix is made of safe characters, so the
      stored name cannot leave the uploads directory: with a base-36 random part
      and an extension without a slash, the whole name has no slash. */
  lemma FilenameHasNoSlash(account: Option<Uploader>, fieldname: string, timestamp: nat, random: string, ext: string)
    requires AllSafe(random) && !Contains(ext, '/')
    ensures !Contains(GenerateFilename(account, fieldname, timestamp, random, ext), '/')
  {
    var p := Prefix(fieldname);
    var stem := SafeJoin(SafeJoin(SafeJoin(p, Identifier(account, timestamp)), NatToString(timestamp)), random);
    assert GenerateFilename(account, fieldname, timestamp, random, ext) == stem + ext;
    SafeThenNoSlash(stem, ext);
  }

  /** A safe stem followed by a slash-free extension has no slash. */
  lemma SafeThenNoSlash(stem: string, ext: string)
    requires AllSafe(stem) && !Contains(ext, '/')
    ensures !Contains(stem + ext, '/')
  {
    var name := stem + ext;
    forall i | 0 <= i < |name| ensures name[i] != '/' {
      if i >= |stem| { assert name[i] == ext[i - |stem|]; }
    }
  }

  /** The name begins with its prefix and the identifier, in that order. */
  lemma FilenameStartsWith(account: Option<Uploader>, fieldname: string, timestamp: nat, random: string, ext: string)
    ensures StartsWith(GenerateFilename(account, fieldname, timestamp, random, ext),
                       Prefix(fieldname) + "-" + Identifier(account, timestamp) + "-")
  {
    var p, id, ts := Prefix(fieldname), Identifier(account, timestamp), NatToString(timestamp);
    assert GenerateFilename(account, fieldname, timestamp, random, ext) == p + "-" + id + "-" + ts + "-" + random + ext;
    HeadOfConcat(p + "-" + id + "-", ts + "-" + random + ext);
    assert p + "-" + id + "-" + ts + "-" + random + ext == (p + "-" + id + "-") + (ts + "-" + random + ext);
  }

  lemma HeadOfConcat(head: string, tail: string)
    ensures StartsWith(head + tail, head)
  {
    assert (head + tail)[..|head|] == head;
  }

  // ---------------------------------------------------------------------------
  // fileFilter
  // ---------------------------------------------------------------------------

  const AllowedTypes: seq<string> := ["image/jpeg", "image/png", "image/webp"]
  const InvalidTypeMessage: string := "Invalid file type. Only JPEG/PNG/WEBP allowed"

  /** The callback of `fileFilter`: accept, or an error. */
  datatype FilterReply = Accept | Reject(message: string)

  function FileFilter(mimetype: string): (r: FilterReply)
    ensures r == Accept <==> mimetype == "image/jpeg" || mimetype == "image/png" || mimetype == "image/webp"
    ensures r != Accept ==> r == Reject(InvalidTypeMessage)
  {
    if mimetype !in AllowedTypes then Reject(InvalidTypeMessage) else Accept
  }

  /** The multer limits: 5 MB per file and at most five product images. */
  const MaxFileSize: nat := 5 * 1024 * 1024
  const MaxProductImages: nat := 5
}
