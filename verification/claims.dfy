/** The application claims carried inside access and refresh tokens, with the subject
    holding the user ID in base 16, and the permission checks made on them. */
module Claims {
  import opened Base
  import GoStrings

  /** The application claims. Of the registered JWT claims only the subject is kept; the
      issuer, audience and time stamps are filled in by the token manager, which is not
      part of this model. */
  datatype Claims = Claims(
    subject: string,
    name: string,
    username: string,
    email: string,
    role: string,
    permissions: seq<string>)

  const NoClaims := Claims("", "", "", "", "", [])

  /** `SetSubjectID`: the subject becomes the user ID in lower-case base 16 without a
      prefix, negative IDs carrying a leading '-'; nothing else changes. */
  function SetSubjectID(c: Claims, uid: Int64): (r: Claims)
    ensures r == c.(subject := r.subject)
    ensures |r.subject| > 0
    ensures r.subject[0] == '-' <==> uid < 0
    ensures forall i :: 0 <= i < |r.subject| ==>
      '0' <= r.subject[i] <= '9' || 'a' <= r.subject[i] <= 'f' || (i == 0 && r.subject[i] == '-')
  {
    GoStrings.FormatHex(uid);
    c.(subject := GoStrings.FormatInt(uid, 16))
  }

  /** `SubjectID`: the subject parsed as a base-16 int64, with Go's error value. */
  function SubjectID(c: Claims): (r: GoStrings.IntParse)
    ensures r.err.None? <==>
      (GoStrings.WellFormedInt(c.subject, 16) && MinInt64 <= GoStrings.SignedValue(c.subject, 16) <= MaxInt64)
    ensures r.err.None? ==> r.value == GoStrings.SignedValue(c.subject, 16)
  {
    GoStrings.ParseIntSpec(c.subject, 16);
    GoStrings.ParseInt(c.subject, 16)
  }

  /** Every int64 user ID, 1 and 2^63-1 included, survives the trip through the subject. */
  lemma SubjectRoundTrip(c: Claims, uid: Int64)
    ensures SubjectID(SetSubjectID(c, uid)) == GoStrings.IntParse(uid, None)
  {
    GoStrings.FormatParseRoundTrip(uid, 16);
  }

  /** A subject with a character that is not a base-16 digit, or one whose value does not
      fit int64, is rejected. */
  lemma SubjectIDRejects(c: Claims, i: nat)
    requires i < |c.subject|
    requires c.subject[i] !in "0123456789abcdefABCDEF"
    requires i > 0 || (c.subject[0] != '+' && c.subject[0] != '-')
    ensures SubjectID(c).err.Some?
  {
    var u := GoStrings.Unsigned(c.subject);
    if i == 0 {
      assert u == c.subject;
      assert GoStrings.DigitValue(u[0]) >= 16;
    } else if c.subject[0] == '+' || c.subject[0] == '-' {
      assert u[i - 1] == c.subject[i];
      assert GoStrings.DigitValue(u[i - 1]) >= 16;
    } else {
      assert GoStrings.DigitValue(u[i]) >= 16;
    }
  }

  /** `HasPermission`: a linear search of the permission list. */
  function HasPermission(c: Claims, required: string): (r: bool)
    ensures r <==> required in c.permissions
  {
    Contains(c.permissions, required)
  }

  function Contains(perms: seq<string>, required: string): (r: bool)
    ensures r <==> required in perms
  {
    if |perms| == 0 then false
    else if perms[0] == required then true
    else
      assert perms == [perms[0]] + perms[1..];
      Contains(perms[1..], required)
  }

  /** `HasAllPermissions`: all-of, not any-of; with nothing required it is true. */
  function HasAllPermissions(c: Claims, required: seq<string>): (r: bool)
    ensures r <==> forall i :: 0 <= i < |required| ==> required[i] in c.permissions
  {
    if |required| == 0 then true
    else if !HasPermission(c, required[0]) then false
    else
      var r := HasAllPermissions(c, required[1..]);
      assert forall i :: 1 <= i < |required| ==> required[i] == required[1..][i - 1];
      r
  }

  /** Granting more permissions never revokes an all-of check that passed. */
  lemma HasAllPermissionsMonotone(c: Claims, more: seq<string>, required: seq<string>)
    requires HasAllPermissions(c, required)
    ensures HasAllPermissions(c.(permissions := c.permissions + more), required)
  {
  }

  /** The permission list with every occurrence of `p` removed. */
  function Without(perms: seq<string>, p: string): (r: seq<string>)
    ensures p !in r
    ensures forall q :: q in r <==> q in perms && q != p
  {
    if |perms| == 0 then []
    else if perms[0] == p then Without(perms[1..], p)
    else [perms[0]] + Without(perms[1..], p)
  }

  /** Taking away any one of the required permissions makes the check fail. */
  lemma {:induction false} HasAllPermissionsNeedsEach(c: Claims, required: seq<string>, i: nat)
    requires i < |required|
    ensures !HasAllPermissions(c.(permissions := Without(c.permissions, required[i])), required)
  {
  }
}
