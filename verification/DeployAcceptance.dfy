// What the gateway accepts, written out: every image of a deployment is pinned to a digest.
module DeployAcceptance {
  import opened Decimals
  import opened DeployManifest

  predicate HexText(text: string, length: nat) {
    |text| == length && forall i :: 0 <= i < |text| ==> text[i] in "0123456789abcdef"
  }

  ghost predicate PinnedTo(repository: string, image: string) {
    exists digest :: HexText(digest, 64) && image == repository + "@sha256:" + digest
  }

  ghost predicate TaggedAs(repository: string, image: string) {
    exists tag: string :: tag != [] && (forall i :: 0 <= i < |tag| ==> TagCharacter(tag[i])) && image == repository + ":" + tag
  }

  predicate TagCharacter(c: char) {
    'A' <= c <= 'Z' || 'a' <= c <= 'z' || '0' <= c <= '9' || c == '_' || c == '.' || c == '-'
  }

  ghost predicate PinnedImage(service: string, image: string) {
    PinnedTo("ghcr.io/alexj11324/orvilo-" + service, image)
  }

  // A baseline may also keep tags, and images from before the move to the new repositories.
  ghost predicate BaselineImage(service: string, image: string) {
    || PinnedTo("ghcr.io/alexj11324/orvilo-" + service, image)
    || TaggedAs("ghcr.io/alexj11324/orvilo-" + service, image)
    || PinnedTo("ghcr.io/alexj11324/patchbay-" + service, image)
    || TaggedAs("ghcr.io/alexj11324/patchbay-" + service, image)
  }

  predicate IsOne(value: Json) { value == Int(1) || value == Real(1.0) || value == Bool(true) }

  predicate HasText(fields: map<string, Json>, key: string, text: string) {
    key in fields && fields[key] == Str(text)
  }

  // A positive run number of at most twenty digits, as text or as an integer.
  predicate RunNumber(value: Json) {
    match value
    case Str(s) =>
      && 1 <= |s| <= 20 && s[0] != '0' && (forall i :: 0 <= i < |s| ==> '0' <= s[i] <= '9')
    case Int(n) => 0 < n < 100000000000000000000
    case _ => false
  }

  ghost predicate FourImages(images: Json, baseline: bool) {
    && images.Obj? && images.fields.Keys == {"backend", "web", "docs", "auth-broker"}
    && forall service :: service in images.fields ==>
         images.fields[service].Str?
         && (if baseline then BaselineImage(service, images.fields[service].s)
             else PinnedImage(service, images.fields[service].s))
  }

  ghost predicate Acceptable(value: Json) {
    && value.Obj?
    && var fields := value.fields;
       && "schema_version" in fields && IsOne(fields["schema_version"])
       && HasText(fields, "action", "deploy") && HasText(fields, "repository", "alexj11324/Cordy")
       && "source_sha" in fields && fields["source_sha"].Str? && HexText(fields["source_sha"].s, 40)
       && "images" in fields && FourImages(fields["images"], false)
       && "workflow_run_id" in fields && RunNumber(fields["workflow_run_id"])
  }

  ghost predicate Restorable(value: Json) {
    && value.Obj?
    && var fields := value.fields;
       && "schema_version" in fields && IsOne(fields["schema_version"])
       && "source_sha" in fields && fields["source_sha"].Str? && HexText(fields["source_sha"].s, 40)
       && "images" in fields
       && FourImages(fields["images"], "bootstrap" in fields && fields["bootstrap"] == Bool(true))
  }

  // ---------------------------------------------------------------- patterns

  lemma HexCharacter(c: char)
    ensures IsLowerHex(c) <==> c in "0123456789abcdef"
  {
    var all := "0123456789abcdef";
    if '0' <= c <= '9' { assert all[c as int - '0' as int] == c; }
    if 'a' <= c <= 'f' { assert all[c as int - 'a' as int + 10] == c; }
  }

  lemma ShaIsHex(text: string)
    ensures IsSha(text) <==> HexText(text, 40)
  {
    forall i | 0 <= i < |text| ensures IsLowerHex(text[i]) <==> text[i] in "0123456789abcdef" {
      HexCharacter(text[i]);
    }
  }

  lemma DigestIsHex(text: string)
    ensures IsDigest(text) <==> exists digest :: HexText(digest, 64) && text == "sha256:" + digest
  {
    if IsDigest(text) {
      var digest := text[7..];
      forall i | 0 <= i < |digest| ensures digest[i] in "0123456789abcdef" { HexCharacter(text[7 + i]); }
      assert HexText(digest, 64) && text == "sha256:" + digest;
    }
    forall digest | HexText(digest, 64) && text == "sha256:" + digest ensures IsDigest(text) {
      assert text[..7] == "sha256:";
      forall i | 7 <= i < |text| ensures IsLowerHex(text[i]) {
        assert text[i] == digest[i - 7];
        HexCharacter(digest[i - 7]);
      }
    }
  }

  lemma ImmutableIsPinned(repository: string, image: string)
    ensures Immutable(repository, image) <==> PinnedTo(repository, image)
  {
    if Immutable(repository, image) {
      var rest := image[|repository| + 1..];
      DigestIsHex(rest);
      var digest :| HexText(digest, 64) && rest == "sha256:" + digest;
      assert image == repository + "@" + rest;
      assert repository + "@" + ("sha256:" + digest) == repository + "@sha256:" + digest;
    }
    forall digest | HexText(digest, 64) && image == repository + "@sha256:" + digest
      ensures Immutable(repository, image)
    {
      assert image == (repository + "@") + ("sha256:" + digest);
      assert image[|repository| + 1..] == "sha256:" + digest;
      DigestIsHex(image[|repository| + 1..]);
    }
  }

  lemma TaggedIsTag(repository: string, image: string)
    ensures Tagged(repository, image) <==> TaggedAs(repository, image)
  {
    if Tagged(repository, image) {
      var tag := image[|repository| + 1..];
      assert image == repository + ":" + tag;
      assert forall i :: 0 <= i < |tag| ==> TagCharacter(tag[i]);
    }
    forall tag: string | tag != [] && (forall i :: 0 <= i < |tag| ==> TagCharacter(tag[i])) && image == repository + ":" + tag
      ensures Tagged(repository, image)
    {
      assert image[|repository| + 1..] == tag;
    }
  }

  lemma ImagesAre(images: Json, baseline: bool)
    ensures AllowedImages(baseline, images) <==> FourImages(images, baseline)
  {
    if images.Obj? && images.fields.Keys == SERVICES {
      forall service | service in SERVICES && images.fields[service].Str?
        ensures AllowedAs(baseline, service, images.fields[service].s)
          <==> if baseline then BaselineImage(service, images.fields[service].s)
               else PinnedImage(service, images.fields[service].s)
      {
        ImageIs(service, images.fields[service].s, baseline);
      }
    }
  }

  lemma ImageIs(service: string, image: string, baseline: bool)
    ensures AllowedAs(baseline, service, image)
      <==> if baseline then BaselineImage(service, image) else PinnedImage(service, image)
  {
    ImmutableIsPinned(ExpectedRepository(service), image);
    ImmutableIsPinned(LegacyRepository(service), image);
    TaggedIsTag(ExpectedRepository(service), image);
    TaggedIsTag(LegacyRepository(service), image);
  }

  lemma TenToTheTwentieth()
    ensures Pow10(20) == 100000000000000000000
  {
    assert Pow10(2) == 100 && Pow10(4) == 10000;
    assert Pow10(6) == 1000000 && Pow10(8) == 100000000;
    assert Pow10(10) == 10000000000 && Pow10(12) == 1000000000000;
    assert Pow10(14) == 100000000000000 && Pow10(16) == 10000000000000000;
    assert Pow10(18) == 1000000000000000000;
  }

  lemma RunIdIs(value: Json)
    ensures IsRunId(RunIdText(value)) <==> RunNumber(value)
  {
    match value {
      case Int(n) =>
        NumericRunIds(n);
        TenToTheTwentieth();
      case _ =>
    }
  }

  // ---------------------------------------------------------------- acceptance

  // A deploy request is accepted exactly when it is of this form; what is deployed is the commit
  // and the four pinned images that it names, never as a baseline.
  lemma AcceptedIff(request: Json)
    ensures ValidateDeployRequest(request).Ok? <==> Acceptable(request)
    ensures Acceptable(request) ==>
      var m, fields := ValidateDeployRequest(request).value, request.fields;
      && fields["source_sha"] == Str(m.sourceSha) && !m.bootstrap
      && m.images.Keys == {"backend", "web", "docs", "auth-broker"}
      && (forall service :: service in m.images ==>
            fields["images"].fields[service] == Str(m.images[service]) && PinnedImage(service, m.images[service]))
  {
    if request.Obj? {
      var fields := request.fields;
      var sha, images := Get(fields, "source_sha"), Get(fields, "images");
      if sha.Str? { ShaIsHex(sha.s); }
      ImagesAre(images, false);
      RunIdIs(Get(fields, "workflow_run_id"));
    }
  }

  // An image of any other form, a tag in particular, has the whole request refused.
  lemma UnpinnedIsRefused(request: Json, service: string)
    requires request.Obj? && "images" in request.fields && request.fields["images"].Obj?
    requires var images := request.fields["images"].fields;
      service in images && !(images[service].Str? && PinnedImage(service, images[service].s))
    ensures ValidateDeployRequest(request).Refused?
  {
    AcceptedIff(request);
  }

  lemma TagIsNotPinned(service: string, tag: string)
    ensures !PinnedImage(service, "ghcr.io/alexj11324/orvilo-" + service + ":" + tag)
  {
    var repository := "ghcr.io/alexj11324/orvilo-" + service;
    var image := repository + ":" + tag;
    assert image[|repository|] == ':';
    forall digest | HexText(digest, 64) ensures image != repository + "@sha256:" + digest {
      assert (repository + "@sha256:" + digest)[|repository|] == '@';
    }
  }

  // A stored manifest reads back exactly when it is of this form; only a baseline may name tags
  // or repositories from before the move.
  lemma StoredIff(value: Json)
    ensures ValidateStoredManifest(value).Ok? <==> Restorable(value)
    ensures Restorable(value) ==>
      var stored, fields := ValidateStoredManifest(value).value, value.fields;
      && fields["source_sha"] == Str(stored.sourceSha)
      && stored.bootstrap == ("bootstrap" in fields && fields["bootstrap"] == Bool(true))
      && stored.images.Keys == {"backend", "web", "docs", "auth-broker"}
      && (forall service :: service in stored.images ==> fields["images"].fields[service] == Str(stored.images[service]))
  {
    if value.Obj? {
      var fields := value.fields;
      var sha, images := Get(fields, "source_sha"), Get(fields, "images");
      if sha.Str? { ShaIsHex(sha.s); }
      ImagesAre(images, Get(fields, "bootstrap") == Bool(true));
    }
  }
}
