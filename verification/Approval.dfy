/** The approval manifest that scopes a mutation (`mutationApprovalFromJson`) and the exact-key test shared with
    Provider Acceptance (`hasExactKeys`). */
module Approval {
  import opened JsText
  import opened JsonValue
  import opened Calendar
  import opened Expiry

  // ----- exact keys -----

  /** As many keys as demanded, and each demanded key among them. */
  predicate HasExactKeys(v: Json, keys: seq<string>) {
    v.Obj? && |v.entries| == |keys| && forall k | k in keys :: k in Keys(v.entries)
  }

  ghost function SetOf<T>(s: seq<T>): set<T> {
    set x | x in s
  }

  lemma {:induction false} DistinctCount<T>(s: seq<T>)
    requires Distinct(s)
    ensures |SetOf(s)| == |s|
  {
    if s != [] {
      DistinctCount(s[1..]);
      assert SetOf(s) == {s[0]} + SetOf(s[1..]);
      assert s[0] !in s[1..];
    }
  }

  /** Counting keys and finding the demanded ones pins down the key set: nothing else can be there. */
  lemma ExactKeysAreTheKeys(v: Json, keys: seq<string>)
    requires WellFormed(v) && Distinct(keys)
    ensures HasExactKeys(v, keys) <==> v.Obj? && SetOf(Keys(v.entries)) == SetOf(keys)
  {
    if v.Obj? {
      var mine, wanted := SetOf(Keys(v.entries)), SetOf(keys);
      DistinctCount(Keys(v.entries));
      DistinctCount(keys);
      if HasExactKeys(v, keys) {
        assert wanted <= mine;
        assert mine == wanted + (mine - wanted);
      }
      if mine == wanted {
        forall k | k in keys ensures k in Keys(v.entries) {
          assert k in mine;
        }
      }
    }
  }

  // ----- the manifest -----

  datatype Raw = Blank | Unparsable | Parsed(v: Json)

  datatype ApprovalError = ManifestRequired | ManifestInvalid | IdMismatch | Expired | TargetForbidden

  /** Empty account and workspace ids are not checked. */
  datatype Target = Target(approvalId: string, accountId: string, workspaceId: string, resourceIds: seq<string>)

  const MANIFEST_KEYS: seq<string> := ["approvalId", "expiresAt", "accountIds", "workspaceIds", "resourceIds"]

  predicate IsStringList(v: Json) {
    v.Arr? && forall i | 0 <= i < |v.items| :: v.items[i].Str? && Trim(v.items[i].s) != ""
  }

  predicate Includes(v: Json, s: string) {
    v.Arr? && Str(s) in v.items
  }

  /** The time value of an expiry text, None unless the text is canonical. */
  function CanonicalExpiry(other: string -> Option<int>): string -> Option<int> {
    (s: string) => if CanonicalExpiresAt(s, other) then DateParse(s, other) else None
  }

  predicate ManifestOk(v: Json, expiry: string -> Option<int>) {
    && HasExactKeys(v, MANIFEST_KEYS)
    && Member(v, "approvalId").Str? && Trim(Member(v, "approvalId").s) != ""
    && Member(v, "expiresAt").Str? && expiry(Member(v, "expiresAt").s).Some?
    && IsStringList(Member(v, "accountIds"))
    && IsStringList(Member(v, "workspaceIds"))
    && IsStringList(Member(v, "resourceIds"))
  }

  predicate Forbidden(v: Json, target: Target) {
    || (target.accountId != "" && !Includes(Member(v, "accountIds"), target.accountId))
    || (target.workspaceId != "" && !Includes(Member(v, "workspaceIds"), target.workspaceId))
    || exists id | id in target.resourceIds :: !Includes(Member(v, "resourceIds"), id)
  }

  function MutationApproval(raw: Raw, target: Target, now: int, expiry: string -> Option<int>)
    : Result<Json, ApprovalError>
  {
    match raw
    case Blank => Err(ManifestRequired)
    case Unparsable => Err(ManifestInvalid)
    case Parsed(v) =>
      if !ManifestOk(v, expiry) then Err(ManifestInvalid)
      else if Member(v, "approvalId").s != target.approvalId then Err(IdMismatch)
      else if expiry(Member(v, "expiresAt").s).value <= now then Err(Expired)
      else if Forbidden(v, target) then Err(TargetForbidden)
      else Ok(v)
  }

  ghost predicate SpellsMoment(s: string, dt: DateTime) {
    RealDateTime(dt) && 0 <= dt.year <= 9999 && s == Spelling(dt)
  }

  ghost predicate SpellsMomentAfter(s: string, now: int) {
    exists dt :: SpellsMoment(s, dt) && MakeTime(dt) > now
  }

  /** A list of texts, none of them blank. */
  ghost predicate ListsTexts(v: Json) {
    v.Arr? && forall i | 0 <= i < |v.items| :: v.items[i].Str? && NotBlank(v.items[i].s)
  }

  ghost predicate Lists(v: Json, s: string) {
    v.Arr? && exists i :: 0 <= i < |v.items| && v.items[i] == Str(s)
  }

  /** What a manifest must say to let a target through: exactly the five members, the approval's own id, the
      canonical spelling of a moment still to come, and lists that name everything the target touches. */
  ghost predicate Grants(v: Json, target: Target, now: int) {
    && v.Obj?
    && SetOf(Keys(v.entries)) == {"approvalId", "expiresAt", "accountIds", "workspaceIds", "resourceIds"}
    && Member(v, "approvalId") == Str(target.approvalId) && NotBlank(target.approvalId)
    && Member(v, "expiresAt").Str? && SpellsMomentAfter(Member(v, "expiresAt").s, now)
    && ListsTexts(Member(v, "accountIds"))
    && ListsTexts(Member(v, "workspaceIds"))
    && ListsTexts(Member(v, "resourceIds"))
    && (target.accountId != "" ==> Lists(Member(v, "accountIds"), target.accountId))
    && (target.workspaceId != "" ==> Lists(Member(v, "workspaceIds"), target.workspaceId))
    && (forall id | id in target.resourceIds :: Lists(Member(v, "resourceIds"), id))
  }

  lemma ListsIff(v: Json, s: string)
    ensures IsStringList(v) <==> ListsTexts(v)
    ensures Includes(v, s) <==> Lists(v, s)
  {
    if v.Arr? {
      forall i | 0 <= i < |v.items| && v.items[i].Str?
        ensures Trim(v.items[i].s) != "" <==> NotBlank(v.items[i].s)
      {
        TrimBlank(v.items[i].s);
      }
    }
  }

  lemma ManifestKeysDistinct()
    ensures Distinct(MANIFEST_KEYS)
    ensures SetOf(MANIFEST_KEYS) == {"approvalId", "expiresAt", "accountIds", "workspaceIds", "resourceIds"}
  {
    var k := MANIFEST_KEYS;
    assert |k[0]| == 10 && |k[1]| == 9 && |k[2]| == 10 && |k[3]| == 12 && |k[4]| == 11;
    assert k[0][1] == 'p' && k[2][1] == 'c';
  }

  ghost predicate ReadsSpellings(expiry: string -> Option<int>) {
    forall s, now :: expiry(s).Some? && expiry(s).value > now <==> SpellsMomentAfter(s, now)
  }

  lemma CanonicalExpiryReads(other: string -> Option<int>)
    ensures ReadsSpellings(CanonicalExpiry(other))
  {
    forall s, now
      ensures CanonicalExpiry(other)(s).Some? && CanonicalExpiry(other)(s).value > now <==> SpellsMomentAfter(s, now)
    {
      ExpiryReads(s, now, other);
    }
  }

  lemma ExpiryOfMoment(s: string, dt: DateTime, other: string -> Option<int>)
    requires SpellsMoment(s, dt)
    ensures CanonicalExpiry(other)(s) == Some(MakeTime(dt))
  {
    ExpiryIsCanonical(s, other);
  }

  lemma MomentOfExpiry(s: string, other: string -> Option<int>) returns (dt: DateTime)
    requires CanonicalExpiry(other)(s).Some?
    ensures SpellsMoment(s, dt)
  {
    ExpiryIsCanonical(s, other);
    dt :| RealDateTime(dt) && 0 <= dt.year <= 9999 && s == Spelling(dt);
  }

  lemma ExpiryReads(s: string, now: int, other: string -> Option<int>)
    ensures CanonicalExpiry(other)(s).Some? && CanonicalExpiry(other)(s).value > now <==> SpellsMomentAfter(s, now)
  {
    if CanonicalExpiry(other)(s).Some? {
      var dt := MomentOfExpiry(s, other);
      ExpiryOfMoment(s, dt, other);
    }
    if SpellsMomentAfter(s, now) {
      var dt :| SpellsMoment(s, dt) && MakeTime(dt) > now;
      ExpiryOfMoment(s, dt, other);
    }
  }

  lemma ManifestOkIff(v: Json, expiry: string -> Option<int>)
    requires WellFormed(v)
    ensures ManifestOk(v, expiry) <==>
            && v.Obj?
            && SetOf(Keys(v.entries)) == {"approvalId", "expiresAt", "accountIds", "workspaceIds", "resourceIds"}
            && Member(v, "approvalId").Str? && NotBlank(Member(v, "approvalId").s)
            && Member(v, "expiresAt").Str? && expiry(Member(v, "expiresAt").s).Some?
            && ListsTexts(Member(v, "accountIds"))
            && ListsTexts(Member(v, "workspaceIds"))
            && ListsTexts(Member(v, "resourceIds"))
  {
    ManifestKeysDistinct();
    ExactKeysAreTheKeys(v, MANIFEST_KEYS);
    if Member(v, "approvalId").Str? {
      TrimBlank(Member(v, "approvalId").s);
    }
    ListsIff(Member(v, "accountIds"), "");
    ListsIff(Member(v, "workspaceIds"), "");
    ListsIff(Member(v, "resourceIds"), "");
  }

  /** An approval goes through exactly when the manifest grants it. */
  lemma ApprovedIffGranted(raw: Raw, target: Target, now: int, expiry: string -> Option<int>)
    requires raw.Parsed? ==> WellFormed(raw.v)
    requires ReadsSpellings(expiry)
    ensures MutationApproval(raw, target, now, expiry).Ok? <==> raw.Parsed? && Grants(raw.v, target, now)
    ensures MutationApproval(raw, target, now, expiry).Ok? ==> MutationApproval(raw, target, now, expiry).value == raw.v
  {
    if raw.Parsed? {
      ManifestOkIff(raw.v, expiry);
      TargetListed(raw.v, target);
    }
  }

  lemma TargetListed(v: Json, target: Target)
    ensures !Forbidden(v, target) <==>
            && (target.accountId != "" ==> Lists(Member(v, "accountIds"), target.accountId))
            && (target.workspaceId != "" ==> Lists(Member(v, "workspaceIds"), target.workspaceId))
            && (forall id | id in target.resourceIds :: Lists(Member(v, "resourceIds"), id))
  {
    ListsIff(Member(v, "accountIds"), target.accountId);
    ListsIff(Member(v, "workspaceIds"), target.workspaceId);
    forall id ensures Includes(Member(v, "resourceIds"), id) <==> Lists(Member(v, "resourceIds"), id) {
      ListsIff(Member(v, "resourceIds"), id);
    }
  }

  /** A manifest that is missing and one that cannot be read are told apart. */
  lemma UnreadableManifests(raw: Raw, target: Target, now: int, expiry: string -> Option<int>)
    ensures MutationApproval(raw, target, now, expiry) == Err(ManifestRequired) <==> raw.Blank?
    ensures raw.Unparsable? ==> MutationApproval(raw, target, now, expiry) == Err(ManifestInvalid)
  {
  }

  /** The same for the script's own reading of expiry texts, whatever the implementation's `Date.parse` makes of
      texts that spell no existing date and time. */
  lemma ApprovalIsScoped(raw: Raw, target: Target, now: int, other: string -> Option<int>)
    requires raw.Parsed? ==> WellFormed(raw.v)
    ensures MutationApproval(raw, target, now, CanonicalExpiry(other)).Ok?
            <==> raw.Parsed? && Grants(raw.v, target, now)
  {
    CanonicalExpiryReads(other);
    ApprovedIffGranted(raw, target, now, CanonicalExpiry(other));
  }

  /** The target that touches nothing but the approval itself. */
  function Bare(approvalId: string): Target {
    Target(approvalId, "", "", [])
  }

  /** The manifest would do for some approval id at some time. */
  ghost predicate IsSound(v: Json, approvalId: string) {
    exists now :: Grants(v, Bare(approvalId), now)
  }

  lemma OkPasses(v: Json, expiry: string -> Option<int>)
    requires ManifestOk(v, expiry)
    ensures MutationApproval(Parsed(v), Bare(Member(v, "approvalId").s), expiry(Member(v, "expiresAt").s).value - 1,
                             expiry).Ok?
  {
  }

  lemma OkGrants(v: Json, expiry: string -> Option<int>) returns (now: int)
    requires WellFormed(v) && ReadsSpellings(expiry) && ManifestOk(v, expiry)
    ensures Grants(v, Bare(Member(v, "approvalId").s), now)
  {
    now := expiry(Member(v, "expiresAt").s).value - 1;
    OkPasses(v, expiry);
    ApprovedIffGranted(Parsed(v), Bare(Member(v, "approvalId").s), now, expiry);
  }

  lemma OkIsSound(v: Json, expiry: string -> Option<int>)
    requires WellFormed(v) && ReadsSpellings(expiry) && ManifestOk(v, expiry)
    ensures IsSound(v, Member(v, "approvalId").s)
  {
    var now := OkGrants(v, expiry);
  }

  lemma SoundIsOk(v: Json, id: string, expiry: string -> Option<int>)
    requires WellFormed(v) && ReadsSpellings(expiry) && IsSound(v, id)
    ensures ManifestOk(v, expiry) && Member(v, "approvalId") == Str(id)
  {
    var now :| Grants(v, Bare(id), now);
    ApprovedIffGranted(Parsed(v), Bare(id), now, expiry);
  }

  lemma SoundIff(v: Json, id: string, expiry: string -> Option<int>)
    requires WellFormed(v) && ReadsSpellings(expiry)
    ensures IsSound(v, id) <==> ManifestOk(v, expiry) && Member(v, "approvalId") == Str(id)
  {
    if ManifestOk(v, expiry) {
      OkIsSound(v, expiry);
    }
    if IsSound(v, id) {
      SoundIsOk(v, id, expiry);
    }
  }

  /** The approval the manifest says it is for. */
  function OwnId(v: Json): string {
    if Member(v, "approvalId").Str? then Member(v, "approvalId").s else ""
  }

  lemma FirstErrors(v: Json, target: Target, now: int, expiry: string -> Option<int>)
    ensures var r := MutationApproval(Parsed(v), target, now, expiry);
            && (r == Err(ManifestInvalid) <==> !ManifestOk(v, expiry))
            && (r == Err(IdMismatch) <==> ManifestOk(v, expiry) && OwnId(v) != target.approvalId)
  {
  }

  lemma OwnIdSound(v: Json, expiry: string -> Option<int>)
    requires WellFormed(v) && ReadsSpellings(expiry)
    ensures IsSound(v, OwnId(v)) <==> ManifestOk(v, expiry)
  {
    if ManifestOk(v, expiry) {
      OkIsSound(v, expiry);
    }
    if IsSound(v, OwnId(v)) {
      SoundIsOk(v, OwnId(v), expiry);
    }
  }

  lemma UnsoundOrMismatched(v: Json, target: Target, now: int, expiry: string -> Option<int>)
    requires WellFormed(v) && ReadsSpellings(expiry)
    ensures var r := MutationApproval(Parsed(v), target, now, expiry);
            && (r == Err(ManifestInvalid) <==> !IsSound(v, OwnId(v)))
            && (r == Err(IdMismatch) <==> IsSound(v, OwnId(v)) && OwnId(v) != target.approvalId)
  {
    FirstErrors(v, target, now, expiry);
    OwnIdSound(v, expiry);
  }

  lemma ExpiredOrForbidden(v: Json, target: Target, now: int, expiry: string -> Option<int>)
    requires WellFormed(v) && ReadsSpellings(expiry) && IsSound(v, target.approvalId)
    ensures var r := MutationApproval(Parsed(v), target, now, expiry);
            && (r == Err(Expired) <==> !Grants(v, Bare(target.approvalId), now))
            && (r == Err(TargetForbidden) <==> Grants(v, Bare(target.approvalId), now) && !Grants(v, target, now))
  {
    SoundIff(v, target.approvalId, expiry);
    ApprovedIffGranted(Parsed(v), target, now, expiry);
    ApprovedIffGranted(Parsed(v), Bare(target.approvalId), now, expiry);
  }

  /** The error says what is wrong: the manifest will never do; or it is for another approval; or for this one, but
      no longer; or still, but not for all the target touches. */
  lemma RefusalSaysWhy(v: Json, target: Target, now: int, expiry: string -> Option<int>)
    requires WellFormed(v) && ReadsSpellings(expiry)
    ensures var r, id := MutationApproval(Parsed(v), target, now, expiry), target.approvalId;
            && (r == Err(ManifestInvalid) <==> !IsSound(v, OwnId(v)))
            && (r == Err(IdMismatch) <==> IsSound(v, OwnId(v)) && OwnId(v) != id)
            && (r == Err(Expired) <==> IsSound(v, id) && !Grants(v, Bare(id), now))
            && (r == Err(TargetForbidden) <==> Grants(v, Bare(id), now) && !Grants(v, target, now))
  {
    UnsoundOrMismatched(v, target, now, expiry);
    SoundIff(v, target.approvalId, expiry);
    if IsSound(v, target.approvalId) {
      ExpiredOrForbidden(v, target, now, expiry);
    } else {
      assert !Grants(v, Bare(target.approvalId), now);
    }
  }
}
