/**
 Merging a duplicate person into a survivor (backend/app/people/merge.py): which rows move, which stay, which go.

 A table is a map from row id to row. Each SQL statement is one update of a whole table.
 */
module PersonMerge {
  import opened Basics
  import opened MergeForest

  datatype Person = Person(mergedInto: Option<Uuid>, mergedAt: Option<int>, isActive: bool, deactivatedAt: Option<int>)

  /** `rest` stands for the columns a merge never reads or writes. */
  datatype Consent = Consent(personId: Uuid, consentType: string, policyVersion: string, rest: string)

  datatype Membership = Membership(personId: Uuid, groupId: Uuid, effectiveFrom: int, rest: string)

  datatype Asset = Asset(personId: Uuid, rest: string)

  datatype Model = Model(name: string, version: string)

  datatype Embedding = Embedding(personId: Uuid, model: Model, assetId: Option<Uuid>, isActive: bool, rest: string)

  datatype GuardianLink = GuardianLink(personId: Uuid, guardianId: Uuid, rest: string)

  datatype Tables = Tables(
    people: map<Uuid, Person>,
    consents: map<Uuid, Consent>,
    memberships: map<Uuid, Membership>,
    assets: map<Uuid, Asset>,
    embeddings: map<Uuid, Embedding>,
    links: map<Uuid, GuardianLink>,
    galleryVersion: nat)

  datatype Summary = Summary(
    consentsMoved: nat,
    membershipsMoved: nat,
    assetsMoved: nat,
    embeddingsMoved: nat,
    embeddingsDeactivated: nat,
    linksMoved: nat,
    linksRemoved: nat,
    galleryVersion: nat)

  // ---------------------------------------------------------------------------------------------
  // What each statement selects

  /** Some active embedding of the person is of the model. */
  predicate HasActive(t: map<Uuid, Embedding>, s: Uuid, model: Model) {
    exists j | j in t :: t[j].personId == s && t[j].isActive && t[j].model == model
  }

  function ToDeactivate(t: map<Uuid, Embedding>, s: Uuid, d: Uuid): set<Uuid> {
    set i | i in t && t[i].personId == d && t[i].isActive && HasActive(t, s, t[i].model)
  }

  predicate HasLink(t: map<Uuid, GuardianLink>, p: Uuid, guardian: Uuid) {
    exists j | j in t :: t[j].personId == p && t[j].guardianId == guardian
  }

  function SharedLinks(t: map<Uuid, GuardianLink>, s: Uuid, d: Uuid): set<Uuid> {
    set i | i in t && t[i].personId == d && HasLink(t, s, t[i].guardianId)
  }

  predicate HasConsent(t: map<Uuid, Consent>, p: Uuid, kind: string, policy: string) {
    exists j | j in t :: t[j].personId == p && t[j].consentType == kind && t[j].policyVersion == policy
  }

  function FreeConsents(t: map<Uuid, Consent>, s: Uuid, d: Uuid): set<Uuid> {
    set i | i in t && t[i].personId == d && !HasConsent(t, s, t[i].consentType, t[i].policyVersion)
  }

  predicate HasMembership(t: map<Uuid, Membership>, p: Uuid, group: Uuid, from: int) {
    exists j | j in t :: t[j].personId == p && t[j].groupId == group && t[j].effectiveFrom == from
  }

  function FreeMemberships(t: map<Uuid, Membership>, s: Uuid, d: Uuid): set<Uuid> {
    set i | i in t && t[i].personId == d && !HasMembership(t, s, t[i].groupId, t[i].effectiveFrom)
  }

  // ---------------------------------------------------------------------------------------------
  // The whole new state, table by table

  function MergedPerson(p: Person, s: Uuid, now: int): Person {
    Person(Some(s), Some(now), false, if p.isActive || p.deactivatedAt.None? then Some(now) else p.deactivatedAt)
  }

  function DeactivatedEmbeddings(t: map<Uuid, Embedding>, s: Uuid, d: Uuid): map<Uuid, Embedding> {
    map i | i in t :: if i in ToDeactivate(t, s, d) then t[i].(isActive := false) else t[i]
  }

  function MovedEmbeddings(t: map<Uuid, Embedding>, s: Uuid, d: Uuid): map<Uuid, Embedding> {
    map i | i in t :: if t[i].personId == d then t[i].(personId := s) else t[i]
  }

  function MovedLinks(t: map<Uuid, GuardianLink>, s: Uuid, d: Uuid): map<Uuid, GuardianLink> {
    map i | i in t :: if t[i].personId == d then t[i].(personId := s) else t[i]
  }

  function MergedEmbeddings(t: map<Uuid, Embedding>, s: Uuid, d: Uuid): map<Uuid, Embedding> {
    map i | i in t ::
      if t[i].personId == d then t[i].(personId := s, isActive := t[i].isActive && !HasActive(t, s, t[i].model))
      else t[i]
  }

  function MergedConsents(t: map<Uuid, Consent>, s: Uuid, d: Uuid): map<Uuid, Consent> {
    map i | i in t :: if i in FreeConsents(t, s, d) then t[i].(personId := s) else t[i]
  }

  function MergedMemberships(t: map<Uuid, Membership>, s: Uuid, d: Uuid): map<Uuid, Membership> {
    map i | i in t :: if i in FreeMemberships(t, s, d) then t[i].(personId := s) else t[i]
  }

  function MergedAssets(t: map<Uuid, Asset>, s: Uuid, d: Uuid): map<Uuid, Asset> {
    map i | i in t :: if t[i].personId == d then t[i].(personId := s) else t[i]
  }

  function MergedLinks(t: map<Uuid, GuardianLink>, s: Uuid, d: Uuid): map<Uuid, GuardianLink> {
    map i | i in t && i !in SharedLinks(t, s, d) :: if t[i].personId == d then t[i].(personId := s) else t[i]
  }

  function AfterMerge(t: Tables, s: Uuid, d: Uuid, now: int): Tables
    requires d in t.people
  {
    Tables(
      t.people[d := MergedPerson(t.people[d], s, now)],
      MergedConsents(t.consents, s, d),
      MergedMemberships(t.memberships, s, d),
      MergedAssets(t.assets, s, d),
      MergedEmbeddings(t.embeddings, s, d),
      MergedLinks(t.links, s, d),
      t.galleryVersion + 1)
  }

  function Refusal(t: Tables, s: Uuid, d: Uuid): Option<MergeError> {
    if s == d then Some(SamePerson)
    else if s !in t.people then Some(SurvivorNotFound)
    else if d !in t.people then Some(DuplicateNotFound)
    else if t.people[s].mergedInto.Some? then Some(SurvivorMerged)
    else if t.people[d].mergedInto.Some? then Some(DuplicateMerged)
    else None
  }

  // What one statement leaves true

  function Altered<T(==)>(t: map<Uuid, T>, t': map<Uuid, T>): set<Uuid> {
    set i | i in t && i in t' && t[i] != t'[i]
  }

  /** The survivor's embeddings stand, and no model is active for both people any more. */
  ghost predicate ConflictsCleared(t: map<Uuid, Embedding>, t': map<Uuid, Embedding>, s: Uuid, d: Uuid) {
    && t'.Keys == t.Keys
    && (forall i | i in t && t[i].personId != d :: t'[i] == t[i])
    && (forall i | i in t :: t'[i] == t[i].(isActive := t'[i].isActive) && (t'[i].isActive ==> t[i].isActive))
    && (forall model :: !(HasActive(t', s, model) && HasActive(t', d, model)))
    && (forall model :: HasActive(t, s, model) || HasActive(t, d, model)
                        <==> HasActive(t', s, model) || HasActive(t', d, model))
  }

  /** Rows only go, no guardian is linked to both any more, and every guardian of either still is to one. */
  ghost predicate LinksDeduped(t: map<Uuid, GuardianLink>, t': map<Uuid, GuardianLink>, s: Uuid, d: Uuid) {
    && (forall i | i in t' :: i in t && t'[i] == t[i])
    && (forall i | i in t && i !in t' :: t[i].personId == d)
    && (forall g :: !(HasLink(t', s, g) && HasLink(t', d, g)))
    && (forall g :: HasLink(t, s, g) || HasLink(t, d, g) <==> HasLink(t', s, g) || HasLink(t', d, g))
  }

  class Database {
    var people: map<Uuid, Person>
    var consents: map<Uuid, Consent>
    var memberships: map<Uuid, Membership>
    var assets: map<Uuid, Asset>
    var embeddings: map<Uuid, Embedding>
    var links: map<Uuid, GuardianLink>
    var galleryVersion: nat

    function State(): Tables
      reads this
    {
      Tables(people, consents, memberships, assets, embeddings, links, galleryVersion)
    }

    constructor (t: Tables)
      ensures State() == t
    {
      people, consents, memberships, assets := t.people, t.consents, t.memberships, t.assets;
      embeddings, links, galleryVersion := t.embeddings, t.links, t.galleryVersion;
    }

    method DeactivateConflictingEmbeddings(s: Uuid, d: Uuid) returns (count: nat)
      modifies this`embeddings
      ensures count == |ToDeactivate(old(embeddings), s, d)|
      ensures embeddings == DeactivatedEmbeddings(old(embeddings), s, d)
      ensures s != d ==> ConflictsCleared(old(embeddings), embeddings, s, d)
      ensures count == |Altered(old(embeddings), embeddings)|
    {
      var t, hit := embeddings, ToDeactivate(embeddings, s, d);
      embeddings := map i | i in t :: if i in hit then t[i].(isActive := false) else t[i];
      count := |hit|;
      assert Altered(t, embeddings) == hit;
      if s != d {
        DeactivationClears(t, s, d);
      }
    }

    method DedupeGuardianLinks(s: Uuid, d: Uuid) returns (count: nat)
      modifies this`links
      ensures count == |SharedLinks(old(links), s, d)|
      ensures links == old(links) - SharedLinks(old(links), s, d)
      ensures s != d ==> LinksDeduped(old(links), links, s, d)
      ensures count == |old(links).Keys - links.Keys|
    {
      var t, hit := links, SharedLinks(links, s, d);
      links := links - hit;
      count := |hit|;
      assert t.Keys - links.Keys == hit;
      if s != d {
        DedupingCovers(t, s, d);
      }
    }

    method MoveConsents(s: Uuid, d: Uuid) returns (count: nat)
      modifies this`consents
      ensures count == |FreeConsents(old(consents), s, d)|
      ensures consents == MergedConsents(old(consents), s, d)
      ensures s != d ==> ConsentsKept(old(consents), consents, s, d)
      ensures count == |Altered(old(consents), consents)|
    {
      var t, hit := consents, FreeConsents(consents, s, d);
      consents := map i | i in t :: if i in hit then t[i].(personId := s) else t[i];
      count := |hit|;
      assert Altered(t, consents) == hit by {
        ConsentsMovedFromDuplicate(t, s, d);
      }
      if s != d {
        ConsentsAreConserved(t, s, d);
      }
    }

    method MoveGroupMemberships(s: Uuid, d: Uuid) returns (count: nat)
      modifies this`memberships
      ensures count == |FreeMemberships(old(memberships), s, d)|
      ensures memberships == MergedMemberships(old(memberships), s, d)
      ensures s != d ==> MembershipsKept(old(memberships), memberships, s, d)
      ensures count == |Altered(old(memberships), memberships)|
    {
      var t, hit := memberships, FreeMemberships(memberships, s, d);
      memberships := map i | i in t :: if i in hit then t[i].(personId := s) else t[i];
      count := |hit|;
      assert Altered(t, memberships) == hit by {
        MembershipsMovedFromDuplicate(t, s, d);
      }
      if s != d {
        MembershipsAreConserved(t, s, d);
      }
    }

    method MoveAssets(s: Uuid, d: Uuid) returns (count: nat)
      modifies this`assets
      ensures count == |OwnedAssets(old(assets), d)| && assets == MergedAssets(old(assets), s, d)
    {
      var t := assets;
      count := |OwnedAssets(t, d)|;
      assets := map i | i in t :: if t[i].personId == d then t[i].(personId := s) else t[i];
    }

    method MoveEmbeddings(s: Uuid, d: Uuid) returns (count: nat)
      modifies this`embeddings
      ensures count == |OwnedEmbeddings(old(embeddings), d)|
      ensures embeddings == MovedEmbeddings(old(embeddings), s, d)
    {
      var t := embeddings;
      count := |OwnedEmbeddings(t, d)|;
      embeddings := map i | i in t :: if t[i].personId == d then t[i].(personId := s) else t[i];
    }

    method MoveGuardianLinks(s: Uuid, d: Uuid) returns (count: nat)
      modifies this`links
      ensures count == |OwnedLinks(old(links), d)|
      ensures links == MovedLinks(old(links), s, d)
    {
      var t := links;
      count := |OwnedLinks(t, d)|;
      links := map i | i in t :: if t[i].personId == d then t[i].(personId := s) else t[i];
    }

    method MergeDuplicatePerson(s: Uuid, d: Uuid, now: int) returns (r: Result<Summary, MergeError>)
      modifies this
      ensures match old(Refusal(State(), s, d)) {
                case Some(e) => r == Err(e) && State() == old(State())
                case None => r.Ok? && State() == AfterMerge(old(State()), s, d, now)
                             && r.value == old(Counted(State(), s, d))
              }
    {
      if s == d {
        return Err(SamePerson);
      }
      if s !in people {
        return Err(SurvivorNotFound);
      }
      if d !in people {
        return Err(DuplicateNotFound);
      }
      if people[s].mergedInto.Some? {
        return Err(SurvivorMerged);
      }
      if people[d].mergedInto.Some? {
        return Err(DuplicateMerged);
      }
      var summary := CarryOut(s, d, now);
      return Ok(summary);
    }

    /** The statements that make room on the survivor. */
    method ClearConflicts(s: Uuid, d: Uuid) returns (deactivated: nat, removed: nat)
      modifies this`embeddings, this`links
      ensures embeddings == DeactivatedEmbeddings(old(embeddings), s, d)
              && deactivated == |ToDeactivate(old(embeddings), s, d)|
      ensures links == old(links) - SharedLinks(old(links), s, d) && removed == |SharedLinks(old(links), s, d)|
    {
      deactivated := DeactivateConflictingEmbeddings(s, d);
      removed := DedupeGuardianLinks(s, d);
    }

    /** The statements that give the survivor the duplicate's rows. */
    method MoveRows(s: Uuid, d: Uuid) returns (moved: Summary)
      modifies this`consents, this`memberships, this`assets, this`embeddings, this`links
      ensures consents == MergedConsents(old(consents), s, d)
              && memberships == MergedMemberships(old(memberships), s, d)
      ensures assets == MergedAssets(old(assets), s, d) && embeddings == MovedEmbeddings(old(embeddings), s, d)
      ensures links == MovedLinks(old(links), s, d)
      ensures moved == Summary(|FreeConsents(old(consents), s, d)|, |FreeMemberships(old(memberships), s, d)|,
                               |OwnedAssets(old(assets), d)|, |OwnedEmbeddings(old(embeddings), d)|, 0,
                               |OwnedLinks(old(links), d)|, 0, 0)
    {
      var consentsMoved := MoveConsents(s, d);
      var membershipsMoved := MoveGroupMemberships(s, d);
      var assetsMoved := MoveAssets(s, d);
      var embeddingsMoved := MoveEmbeddings(s, d);
      var linksMoved := MoveGuardianLinks(s, d);
      return Summary(consentsMoved, membershipsMoved, assetsMoved, embeddingsMoved, 0, linksMoved, 0, 0);
    }

    /** A merge that is not refused. */
    method CarryOut(s: Uuid, d: Uuid, now: int) returns (summary: Summary)
      requires d in people
      modifies this
      ensures State() == AfterMerge(old(State()), s, d, now) && summary == old(Counted(State(), s, d))
    {
      EmbeddingStatementsCompose(embeddings, s, d);
      LinkStatementsCompose(links, s, d);
      var deactivated, removed := ClearConflicts(s, d);
      var moved := MoveRows(s, d);
      people := people[d := MergedPerson(people[d], s, now)];
      galleryVersion := galleryVersion + 1;
      return moved.(embeddingsDeactivated := deactivated, linksRemoved := removed, galleryVersion := galleryVersion);
    }
  }

  lemma DeactivationClears(t: map<Uuid, Embedding>, s: Uuid, d: Uuid)
    requires s != d
    ensures ConflictsCleared(t, DeactivatedEmbeddings(t, s, d), s, d)
  {
    var t' := DeactivatedEmbeddings(t, s, d);
    forall model
      ensures HasActive(t', s, model) == HasActive(t, s, model)
      ensures HasActive(t', d, model) <==> HasActive(t, d, model) && !HasActive(t, s, model)
    {
      DeactivationByModel(t, s, d, model);
    }
  }

  lemma DeactivationByModel(t: map<Uuid, Embedding>, s: Uuid, d: Uuid, model: Model)
    requires s != d
    ensures var t' := DeactivatedEmbeddings(t, s, d);
            && HasActive(t', s, model) == HasActive(t, s, model)
            && (HasActive(t', d, model) <==> HasActive(t, d, model) && !HasActive(t, s, model))
  {
    var t' := DeactivatedEmbeddings(t, s, d);
    forall j | j in t && t[j].isActive && t[j].model == model
      ensures t[j].personId == s ==> t'[j] == t[j]
      ensures t[j].personId == d ==> t'[j].isActive == !HasActive(t, s, model)
    {
    }
  }

  lemma DedupingCovers(t: map<Uuid, GuardianLink>, s: Uuid, d: Uuid)
    requires s != d
    ensures LinksDeduped(t, t - SharedLinks(t, s, d), s, d)
  {
    var t' := t - SharedLinks(t, s, d);
    forall g
      ensures HasLink(t', s, g) == HasLink(t, s, g)
      ensures HasLink(t', d, g) <==> HasLink(t, d, g) && !HasLink(t, s, g)
    {
      assert forall j | j in t && t[j].personId == s :: j in t';
      assert forall j | j in t && t[j].personId == d :: j in t' <==> !HasLink(t, s, t[j].guardianId);
    }
  }

  lemma ConsentsMovedFromDuplicate(t: map<Uuid, Consent>, s: Uuid, d: Uuid)
    ensures s == d ==> FreeConsents(t, s, d) == {}
  {
  }

  lemma MembershipsMovedFromDuplicate(t: map<Uuid, Membership>, s: Uuid, d: Uuid)
    ensures s == d ==> FreeMemberships(t, s, d) == {}
  {
  }

  function OwnedAssets(t: map<Uuid, Asset>, p: Uuid): set<Uuid> {
    set i | i in t && t[i].personId == p
  }

  function OwnedEmbeddings(t: map<Uuid, Embedding>, p: Uuid): set<Uuid> {
    set i | i in t && t[i].personId == p
  }

  function OwnedLinks(t: map<Uuid, GuardianLink>, p: Uuid): set<Uuid> {
    set i | i in t && t[i].personId == p
  }

  /** Deactivating first and moving afterwards is the one-step embedding update. */
  lemma EmbeddingStatementsCompose(t: map<Uuid, Embedding>, s: Uuid, d: Uuid)
    ensures OwnedEmbeddings(DeactivatedEmbeddings(t, s, d), d) == OwnedEmbeddings(t, d)
    ensures MovedEmbeddings(DeactivatedEmbeddings(t, s, d), s, d) == MergedEmbeddings(t, s, d)
  {
  }

  lemma LinkStatementsCompose(t: map<Uuid, GuardianLink>, s: Uuid, d: Uuid)
    ensures OwnedLinks(t - SharedLinks(t, s, d), d) == OwnedLinks(t, d) - SharedLinks(t, s, d)
    ensures MovedLinks(t - SharedLinks(t, s, d), s, d) == MergedLinks(t, s, d)
  {
  }

  /** The counts a successful merge reports. */
  function Counted(t: Tables, s: Uuid, d: Uuid): Summary {
    Summary(
      |FreeConsents(t.consents, s, d)|,
      |FreeMemberships(t.memberships, s, d)|,
      |OwnedAssets(t.assets, d)|,
      |OwnedEmbeddings(t.embeddings, d)|,
      |ToDeactivate(t.embeddings, s, d)|,
      |OwnedLinks(t.links, d) - SharedLinks(t.links, s, d)|,
      |SharedLinks(t.links, s, d)|,
      t.galleryVersion + 1)
  }

  // ---------------------------------------------------------------------------------------------
  // Unique keys

  predicate SameConsentKey(a: Consent, b: Consent) {
    a.personId == b.personId && a.consentType == b.consentType && a.policyVersion == b.policyVersion
  }

  predicate SameMembershipKey(a: Membership, b: Membership) {
    a.personId == b.personId && a.groupId == b.groupId && a.effectiveFrom == b.effectiveFrom
  }

  /** A null asset never collides. */
  predicate SameEmbeddingKey(a: Embedding, b: Embedding) {
    a.personId == b.personId && a.model == b.model && a.assetId.Some? && a.assetId == b.assetId
  }

  predicate SameLinkKey(a: GuardianLink, b: GuardianLink) {
    a.personId == b.personId && a.guardianId == b.guardianId
  }

  predicate UniqueConsents(t: map<Uuid, Consent>) {
    forall i, j | i in t && j in t && i != j :: !SameConsentKey(t[i], t[j])
  }

  predicate UniqueMemberships(t: map<Uuid, Membership>) {
    forall i, j | i in t && j in t && i != j :: !SameMembershipKey(t[i], t[j])
  }

  predicate UniqueEmbeddings(t: map<Uuid, Embedding>) {
    forall i, j | i in t && j in t && i != j :: !SameEmbeddingKey(t[i], t[j])
  }

  predicate UniqueLinks(t: map<Uuid, GuardianLink>) {
    forall i, j | i in t && j in t && i != j :: !SameLinkKey(t[i], t[j])
  }

  lemma ConsentKeysSurvive(t: map<Uuid, Consent>, s: Uuid, d: Uuid)
    requires s != d && UniqueConsents(t)
    ensures UniqueConsents(MergedConsents(t, s, d))
  {
  }

  lemma MembershipKeysSurvive(t: map<Uuid, Membership>, s: Uuid, d: Uuid)
    requires s != d && UniqueMemberships(t)
    ensures UniqueMemberships(MergedMemberships(t, s, d))
  {
  }

  lemma LinkKeysSurvive(t: map<Uuid, GuardianLink>, s: Uuid, d: Uuid)
    requires s != d && UniqueLinks(t)
    ensures UniqueLinks(MergedLinks(t, s, d))
  {
  }

  /** An embedding of each of the two people, of one model, over one and the same enrolment image. */
  predicate ShareAnAsset(t: map<Uuid, Embedding>, s: Uuid, d: Uuid) {
    exists i, j | i in t && j in t ::
      t[i].personId == s && t[j].personId == d && t[i].model == t[j].model && t[i].assetId.Some?
      && t[i].assetId == t[j].assetId
  }

  /** Embeddings move unconditionally, so their key survives exactly when the two people share no asset. */
  lemma EmbeddingKeysSurviveExactly(t: map<Uuid, Embedding>, s: Uuid, d: Uuid)
    requires s != d && UniqueEmbeddings(t)
    ensures UniqueEmbeddings(MergedEmbeddings(t, s, d)) <==> !ShareAnAsset(t, s, d)
  {
    var t' := MergedEmbeddings(t, s, d);
    if ShareAnAsset(t, s, d) {
      var i, j :| i in t && j in t && t[i].personId == s && t[j].personId == d && t[i].model == t[j].model
                  && t[i].assetId.Some? && t[i].assetId == t[j].assetId;
      assert SameEmbeddingKey(t'[i], t'[j]);
    } else {
      forall i, j | i in t' && j in t' && i != j
        ensures !SameEmbeddingKey(t'[i], t'[j])
      {
        assert !SameEmbeddingKey(t[i], t[j]);
      }
    }
  }

  // ---------------------------------------------------------------------------------------------
  // What each person owns afterwards

  /** No consent is lost or altered but for its owner, and the duplicate keeps only those whose key the survivor had. */
  ghost predicate ConsentsKept(t: map<Uuid, Consent>, t': map<Uuid, Consent>, s: Uuid, d: Uuid) {
    && t'.Keys == t.Keys
    && (forall i | i in t :: t'[i] == t[i].(personId := t'[i].personId))
    && (forall i | i in t && t[i].personId != d :: t'[i] == t[i])
    && (forall i | i in t && t[i].personId == d ::
          t'[i].personId == if HasConsent(t, s, t[i].consentType, t[i].policyVersion) then d else s)
    && (forall kind, policy ::
          HasConsent(t', s, kind, policy) <==> HasConsent(t, s, kind, policy) || HasConsent(t, d, kind, policy))
  }

  lemma ConsentsAreConserved(t: map<Uuid, Consent>, s: Uuid, d: Uuid)
    requires s != d
    ensures ConsentsKept(t, MergedConsents(t, s, d), s, d)
  {
  }

  ghost predicate MembershipsKept(t: map<Uuid, Membership>, t': map<Uuid, Membership>, s: Uuid, d: Uuid) {
    && t'.Keys == t.Keys
    && (forall i | i in t :: t'[i] == t[i].(personId := t'[i].personId))
    && (forall i | i in t && t[i].personId != d :: t'[i] == t[i])
    && (forall i | i in t && t[i].personId == d ::
          t'[i].personId == if HasMembership(t, s, t[i].groupId, t[i].effectiveFrom) then d else s)
    && (forall group, from ::
          HasMembership(t', s, group, from) <==> HasMembership(t, s, group, from) || HasMembership(t, d, group, from))
  }

  lemma MembershipsAreConserved(t: map<Uuid, Membership>, s: Uuid, d: Uuid)
    requires s != d
    ensures MembershipsKept(t, MergedMemberships(t, s, d), s, d)
  {
  }

  /** Only links to a guardian the survivor already has go; the survivor ends with every guardian of both, each once. */
  lemma GuardiansAreConserved(t: map<Uuid, GuardianLink>, s: Uuid, d: Uuid)
    requires s != d && UniqueLinks(t)
    ensures var t' := MergedLinks(t, s, d);
            && t.Keys - t'.Keys == SharedLinks(t, s, d) && t'.Keys <= t.Keys
            && UniqueLinks(t')
            && (forall i | i in t' :: t'[i] == t[i].(personId := if t[i].personId == d then s else t[i].personId))
            && (forall g :: !HasLink(t', d, g))
            && (forall g :: HasLink(t', s, g) <==> HasLink(t, s, g) || HasLink(t, d, g))
  {
  }

  function ActiveOf(t: map<Uuid, Embedding>, p: Uuid, model: Model): set<Uuid> {
    set i | i in t && t[i].personId == p && t[i].isActive && t[i].model == model
  }

  /**
   No embedding is lost, the duplicate owns none, and for each model the survivor's active embeddings are its own if
   it had any, else the duplicate's.
   */
  lemma EmbeddingsAreConserved(t: map<Uuid, Embedding>, s: Uuid, d: Uuid, model: Model)
    requires s != d
    ensures var t' := MergedEmbeddings(t, s, d);
            && t'.Keys == t.Keys
            && OwnedEmbeddings(t', d) == {} && OwnedEmbeddings(t', s) == OwnedEmbeddings(t, s) + OwnedEmbeddings(t, d)
            && (forall i | i in t && t[i].personId != d :: t'[i] == t[i])
            && (forall i | i in t :: t'[i] == t[i].(personId := t'[i].personId, isActive := t'[i].isActive))
            && ActiveOf(t', s, model) == if ActiveOf(t, s, model) != {} then ActiveOf(t, s, model)
                                         else ActiveOf(t, d, model)
  {
    var t' := MergedEmbeddings(t, s, d);
    assert HasActive(t, s, model) <==> ActiveOf(t, s, model) != {} by {
      if HasActive(t, s, model) {
        var j :| j in t && t[j].personId == s && t[j].isActive && t[j].model == model;
        assert j in ActiveOf(t, s, model);
      }
    }
  }

  lemma AssetsAreConserved(t: map<Uuid, Asset>, s: Uuid, d: Uuid)
    requires s != d
    ensures var t' := MergedAssets(t, s, d);
            && t'.Keys == t.Keys
            && OwnedAssets(t', d) == {} && OwnedAssets(t', s) == OwnedAssets(t, s) + OwnedAssets(t, d)
            && forall i | i in t :: t'[i] == t[i].(personId := if t[i].personId == d then s else t[i].personId)
  {
  }

  // ---------------------------------------------------------------------------------------------
  // The merge pointers in the people table are a merge forest

  function Pointers(people: map<Uuid, Person>): Merges {
    map p | p in people && people[p].mergedInto.Some? :: people[p].mergedInto.value
  }

  /** A merge is accepted exactly when the forest allows it, and adds exactly that pointer. */
  lemma PointersFollowTheForest(t: Tables, s: Uuid, d: Uuid, now: int)
    requires s in t.people && d in t.people
    ensures Refusal(t, s, d).None? <==> MayMerge(Pointers(t.people), s, d)
    ensures Refusal(t, s, d).None? ==>
              Pointers(AfterMerge(t, s, d, now).people) == Merged(Pointers(t.people), s, d)
  {
  }

  /**
   Both must be known people, different and not merged away, and the merged person is left as the source promises: the
   others stay as they were, the duplicate points at the survivor, is inactive, and was deactivated no later than now.
   */
  lemma PeopleAfterMerge(t: Tables, s: Uuid, d: Uuid, now: int, p: Uuid)
    requires p in t.people
    ensures Refusal(t, s, d).None? <==>
            && s != d && s in t.people && d in t.people
            && t.people[s].mergedInto.None? && t.people[d].mergedInto.None?
    ensures Refusal(t, s, d).None? ==>
              var was, people := t.people[p], AfterMerge(t, s, d, now).people;
              && people.Keys == t.people.Keys
              && (p != d ==> people[p] == was)
              && (p == d ==>
                    && people[p].mergedInto == Some(s) && people[p].mergedAt == Some(now) && !people[p].isActive
                    && people[p].deactivatedAt == if !was.isActive && was.deactivatedAt.Some? then was.deactivatedAt
                                                  else Some(now))
  {
  }

  /** Which complaint a refused request gets. */
  lemma RefusalsMean(t: Tables, s: Uuid, d: Uuid)
    ensures var e := Refusal(t, s, d);
            && (e == Some(SamePerson) <==> s == d)
            && (e == Some(SurvivorNotFound) <==> s != d && s !in t.people)
            && (e == Some(DuplicateNotFound) <==> s != d && s in t.people && d !in t.people)
            && (s != d && s in t.people && d in t.people ==>
                  && (e == Some(SurvivorMerged) <==> t.people[s].mergedInto.Some?)
                  && (e == Some(DuplicateMerged) <==> t.people[s].mergedInto.None? && t.people[d].mergedInto.Some?))
  {
  }

  function OwnersChanged(t: map<Uuid, Embedding>, t': map<Uuid, Embedding>): set<Uuid> {
    set i | i in t && i in t' && t[i].personId != t'[i].personId
  }

  function SwitchedOff(t: map<Uuid, Embedding>, t': map<Uuid, Embedding>): set<Uuid> {
    set i | i in t && i in t' && t[i].isActive && !t'[i].isActive
  }

  /** The summary counts the rows that differ afterwards. */
  lemma SummaryCountsTheChanges(t: Tables, s: Uuid, d: Uuid, now: int)
    requires Refusal(t, s, d).None?
    ensures var t', n := AfterMerge(t, s, d, now), Counted(t, s, d);
            && n.consentsMoved == |Altered(t.consents, t'.consents)|
            && n.membershipsMoved == |Altered(t.memberships, t'.memberships)|
            && n.assetsMoved == |Altered(t.assets, t'.assets)|
            && n.embeddingsMoved == |OwnersChanged(t.embeddings, t'.embeddings)|
            && n.embeddingsDeactivated == |SwitchedOff(t.embeddings, t'.embeddings)|
            && n.linksMoved == |Altered(t.links, t'.links)|
            && n.linksRemoved == |t.links.Keys - t'.links.Keys|
            && n.galleryVersion == t'.galleryVersion == t.galleryVersion + 1
  {
    var t' := AfterMerge(t, s, d, now);
    assert Altered(t.consents, t'.consents) == FreeConsents(t.consents, s, d);
    assert Altered(t.memberships, t'.memberships) == FreeMemberships(t.memberships, s, d);
    assert Altered(t.assets, t'.assets) == OwnedAssets(t.assets, d);
    assert OwnersChanged(t.embeddings, t'.embeddings) == OwnedEmbeddings(t.embeddings, d);
    assert SwitchedOff(t.embeddings, t'.embeddings) == ToDeactivate(t.embeddings, s, d);
    assert Altered(t.links, t'.links) == OwnedLinks(t.links, d) - SharedLinks(t.links, s, d);
    assert t.links.Keys - t'.links.Keys == SharedLinks(t.links, s, d);
  }

  predicate KeysAreUnique(t: Tables) {
    UniqueConsents(t.consents) && UniqueMemberships(t.memberships) && UniqueEmbeddings(t.embeddings)
    && UniqueLinks(t.links)
  }

  /** One person's row points at an asset that the assets table gives to that person. */
  predicate AssetsBelong(t: Tables) {
    forall i | i in t.embeddings && t.embeddings[i].assetId.Some? ::
      && t.embeddings[i].assetId.value in t.assets
      && t.assets[t.embeddings[i].assetId.value].personId == t.embeddings[i].personId
  }

  /** When each embedding's image is its own person's, every merge keeps every key, and keeps it so. */
  lemma MergesKeepEveryKey(t: Tables, s: Uuid, d: Uuid, now: int)
    requires Refusal(t, s, d).None? && KeysAreUnique(t) && AssetsBelong(t)
    ensures KeysAreUnique(AfterMerge(t, s, d, now)) && AssetsBelong(AfterMerge(t, s, d, now))
  {
    ConsentKeysSurvive(t.consents, s, d);
    MembershipKeysSurvive(t.memberships, s, d);
    LinkKeysSurvive(t.links, s, d);
    EmbeddingKeysSurviveExactly(t.embeddings, s, d);
  }

  function MergeAll(t: Tables, requests: seq<(Uuid, Uuid)>, now: int): Tables {
    if requests == [] then t
    else
      var before, (s, d) := MergeAll(t, requests[..|requests| - 1], now), requests[|requests| - 1];
      if Refusal(before, s, d).None? then AfterMerge(before, s, d, now) else before
  }

  /** Over any run of merge requests the keys stay unique and the pointers stay acyclic. */
  lemma {:induction false} EveryRunKeepsKeys(t: Tables, requests: seq<(Uuid, Uuid)>, now: int)
    requires KeysAreUnique(t) && AssetsBelong(t) && Acyclic(Pointers(t.people))
    ensures var end := MergeAll(t, requests, now);
            KeysAreUnique(end) && AssetsBelong(end) && Acyclic(Pointers(end.people))
  {
    if requests != [] {
      var init := requests[..|requests| - 1];
      var (s, d) := requests[|requests| - 1];
      EveryRunKeepsKeys(t, init, now);
      var before := MergeAll(t, init, now);
      if Refusal(before, s, d).None? {
        MergesKeepEveryKey(before, s, d, now);
        PointersFollowTheForest(before, s, d, now);
        MergeRedirects(Pointers(before.people), s, d);
      }
    }
  }

  predicate MergedAwayAreInactive(people: map<Uuid, Person>) {
    forall p | p in people && people[p].mergedInto.Some? :: !people[p].isActive
  }

  /** Somebody a run leaves unmerged is untouched; nobody merged away is active after it, if nobody was before. */
  lemma {:induction false} EveryRunRetiresTheMerged(t: Tables, requests: seq<(Uuid, Uuid)>, now: int)
    requires MergedAwayAreInactive(t.people)
    ensures var people := MergeAll(t, requests, now).people;
            && MergedAwayAreInactive(people)
            && people.Keys == t.people.Keys
            && forall p | p in people && (people[p].mergedInto.None? || t.people[p].mergedInto.Some?) ::
                 people[p] == t.people[p]
  {
    if requests != [] {
      EveryRunRetiresTheMerged(t, requests[..|requests| - 1], now);
    }
  }
}
