/** AnonCreds object identifiers (`anoncreds/src/utils.rs`): five parts joined by slashes. */
module Identifiers {
  import opened Wrappers
  import opened Text
  import opened Did

  const ANONCREDS_OBJECT_FAMILY := "anoncreds"
  const ANONCREDS_VERSION := "v1"

  datatype AnonCredsObjectType = Schema | PublicCredDef | RevReg | RevRegEntry {
    function AsString(): string {
      match this
      case Schema => "SCHEMA"
      case PublicCredDef => "PUBLIC_CRED_DEF"
      case RevReg => "REV_REG"
      case RevRegEntry => "REV_REG_ENTRY"
    }
  }

  datatype AnonCredsIdentifier = AnonCredsIdentifier(
    issuerDid: string, networkName: string, objectFamily: string, version: string, objectType: string, topicId: string)

  function BuildIdentifier(publisherDid: string, topicId: string, objectType: AnonCredsObjectType): string {
    Join([publisherDid, ANONCREDS_OBJECT_FAMILY, ANONCREDS_VERSION, objectType.AsString(), topicId], '/')
  }

  function ParseIdentifier(id: string): Result<AnonCredsIdentifier, DidError> {
    var parts := SplitN(id, 5, '/');
    if |parts| != 5 then Err(InvalidArgument)
    else
      match ParseDid(parts[0])
      case Err(_) => Err(InvalidArgument)
      case Ok(did) => Ok(AnonCredsIdentifier(parts[0], did.network.ToString(), parts[1], parts[2], parts[3], parts[4]))
  }

  /** An accepted identifier is the join of its parts, and its issuer is an accepted DID without a slash. */
  lemma AcceptedIdentifierIsItsParts(id: string)
    requires ParseIdentifier(id).Ok?
    ensures var p := ParseIdentifier(id).value;
      && id == Join([p.issuerDid, p.objectFamily, p.version, p.objectType, p.topicId], '/')
      && '/' !in p.issuerDid && ParseDid(p.issuerDid).Ok?
      && p.networkName == ParseDid(p.issuerDid).value.network.ToString()
  {
    JoinOfSplitN(id, 5, '/');
    SplitNIsClean(id, 5, '/');
    FirstIsClean(SplitN(id, 5, '/'));
    FiveParts(SplitN(id, 5, '/'), ParseIdentifier(id).value);
  }

  lemma FirstIsClean(parts: seq<string>)
    requires |parts| == 5 && CleanPieces(parts, 5, '/')
    ensures '/' !in parts[0]
  {
  }

  lemma FiveParts(parts: seq<string>, p: AnonCredsIdentifier)
    requires |parts| == 5
    requires parts[0] == p.issuerDid && parts[1] == p.objectFamily && parts[2] == p.version
    requires parts[3] == p.objectType && parts[4] == p.topicId
    ensures parts == [p.issuerDid, p.objectFamily, p.version, p.objectType, p.topicId]
  {
  }

  lemma BuiltPartsAreClean(publisherDid: string, topicId: string, objectType: AnonCredsObjectType)
    requires '/' !in publisherDid
    ensures CleanPieces([publisherDid, ANONCREDS_OBJECT_FAMILY, ANONCREDS_VERSION, objectType.AsString(), topicId], 5,
      '/')
  {
    var last := [topicId];
    CleanCons(objectType.AsString(), last, 2, '/');
    CleanCons(ANONCREDS_VERSION, [objectType.AsString()] + last, 3, '/');
    CleanCons(ANONCREDS_OBJECT_FAMILY, [ANONCREDS_VERSION] + ([objectType.AsString()] + last), 4, '/');
    CleanCons(publisherDid, [ANONCREDS_OBJECT_FAMILY] + ([ANONCREDS_VERSION] + ([objectType.AsString()] + last)), 5,
      '/');
    assert [publisherDid] + ([ANONCREDS_OBJECT_FAMILY] + ([ANONCREDS_VERSION] + ([objectType.AsString()] + last)))
      == [publisherDid, ANONCREDS_OBJECT_FAMILY, ANONCREDS_VERSION, objectType.AsString(), topicId];
  }

  /** A built identifier parses back to what it was built from exactly when the publisher is an
      accepted DID whose text holds no slash; the topic id may be any text. */
  lemma IdentifierRoundTrip(publisherDid: string, topicId: string, objectType: AnonCredsObjectType, network: string)
    ensures ParseIdentifier(BuildIdentifier(publisherDid, topicId, objectType))
        == Ok(AnonCredsIdentifier(publisherDid, network, ANONCREDS_OBJECT_FAMILY, ANONCREDS_VERSION,
          objectType.AsString(), topicId))
      <==> '/' !in publisherDid && ParseDid(publisherDid).Ok?
           && network == ParseDid(publisherDid).value.network.ToString()
  {
    var id := BuildIdentifier(publisherDid, topicId, objectType);
    if '/' !in publisherDid {
      BuiltPartsAreClean(publisherDid, topicId, objectType);
      SplitNOfJoin([publisherDid, ANONCREDS_OBJECT_FAMILY, ANONCREDS_VERSION, objectType.AsString(), topicId], 5, '/');
    } else if ParseIdentifier(id).Ok? {
      AcceptedIdentifierIsItsParts(id);
    }
  }

  lemma FiveCleanParts(a: string, b: string, c: string, d: string, e: string)
    requires '/' !in a && '/' !in b && '/' !in c && '/' !in d
    ensures CleanPieces([a, b, c, d, e], 5, '/')
  {
    CleanCons(d, [e], 2, '/');
    CleanCons(c, [d] + [e], 3, '/');
    CleanCons(b, [c] + ([d] + [e]), 4, '/');
    CleanCons(a, [b] + ([c] + ([d] + [e])), 5, '/');
    assert [a] + ([b] + ([c] + ([d] + [e]))) == [a, b, c, d, e];
  }

  lemma FirstFourAreClean(parts: seq<string>)
    requires |parts| == 5 && CleanPieces(parts, 5, '/')
    ensures '/' !in parts[0] && '/' !in parts[1] && '/' !in parts[2] && '/' !in parts[3]
  {
    assert CleanPieces(parts[1..], 4, '/') && parts[1..][0] == parts[1];
    assert CleanPieces(parts[1..][1..], 3, '/') && parts[1..][1..][0] == parts[2];
    assert CleanPieces(parts[1..][1..][1..], 2, '/') && parts[1..][1..][1..][0] == parts[3];
  }

  /** What is accepted, and as what: any five parts with slashes between them of which the first is an
      accepted DID and only the last may hold a slash; what they say is not looked at. The rest is invalid. */
  lemma IdentifierIff(id: string, p: AnonCredsIdentifier)
    ensures ParseIdentifier(id) == Ok(p) <==>
      && id == Join([p.issuerDid, p.objectFamily, p.version, p.objectType, p.topicId], '/')
      && '/' !in p.issuerDid && '/' !in p.objectFamily && '/' !in p.version && '/' !in p.objectType
      && ParseDid(p.issuerDid).Ok? && p.networkName == ParseDid(p.issuerDid).value.network.ToString()
    ensures ParseIdentifier(id).Err? ==> ParseIdentifier(id) == Err(InvalidArgument)
  {
    var parts := [p.issuerDid, p.objectFamily, p.version, p.objectType, p.topicId];
    if ParseIdentifier(id) == Ok(p) {
      AcceptedIdentifierIsItsParts(id);
      SplitNIsClean(id, 5, '/');
      FirstFourAreClean(SplitN(id, 5, '/'));
    }
    if id == Join(parts, '/') && '/' !in parts[0] && '/' !in parts[1] && '/' !in parts[2] && '/' !in parts[3] {
      FiveCleanParts(parts[0], parts[1], parts[2], parts[3], parts[4]);
      SplitNOfJoin(parts, 5, '/');
    }
  }

  lemma JoinFive(a: string, b: string, c: string, d: string, e: string)
    ensures Join([a, b, c, d, e], '/') == a + "/" + b + "/" + c + "/" + d + "/" + e
  {
    JoinCons(d, [e], '/');
    JoinCons(c, [d] + [e], '/');
    JoinCons(b, [c] + ([d] + [e]), '/');
    JoinCons(a, [b] + ([c] + ([d] + [e])), '/');
    assert [a] + ([b] + ([c] + ([d] + [e]))) == [a, b, c, d, e];
  }

  /** What is built, letter by letter. */
  lemma BuiltText(publisherDid: string, topicId: string)
    ensures BuildIdentifier(publisherDid, topicId, Schema)
      == publisherDid + "/" + "anoncreds" + "/" + "v1" + "/" + "SCHEMA" + "/" + topicId
    ensures BuildIdentifier(publisherDid, topicId, PublicCredDef)
      == publisherDid + "/" + "anoncreds" + "/" + "v1" + "/" + "PUBLIC_CRED_DEF" + "/" + topicId
    ensures BuildIdentifier(publisherDid, topicId, RevReg)
      == publisherDid + "/" + "anoncreds" + "/" + "v1" + "/" + "REV_REG" + "/" + topicId
    ensures BuildIdentifier(publisherDid, topicId, RevRegEntry)
      == publisherDid + "/" + "anoncreds" + "/" + "v1" + "/" + "REV_REG_ENTRY" + "/" + topicId
  {
    JoinFive(publisherDid, "anoncreds", "v1", "SCHEMA", topicId);
    JoinFive(publisherDid, "anoncreds", "v1", "PUBLIC_CRED_DEF", topicId);
    JoinFive(publisherDid, "anoncreds", "v1", "REV_REG", topicId);
    JoinFive(publisherDid, "anoncreds", "v1", "REV_REG_ENTRY", topicId);
  }
}
