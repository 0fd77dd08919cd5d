// The manifests of the production deployment gateway (deploy/origin/production_deploy.py):
// what a deploy request must be, and what is accepted when a stored manifest is read back.
module DeployManifest {
  import opened Decimals

  datatype Json =
    | Null
    | Bool(b: bool)
    | Int(n: int)
    | Real(r: real)
    | Str(s: string)
    | Arr(items: seq<Json>)
    | Obj(fields: map<string, Json>)

  datatype Result<+T> = Ok(value: T) | Refused(reason: string)

  // A validated deployment. `images` maps each of the four services to its image reference.
  datatype Manifest = Manifest(
    sourceSha: string, workflowRunId: string, images: map<string, string>, bootstrap: bool)

  const REPOSITORY := "alexj11324/Cordy"
  const SERVICES: set<string> := {"backend", "web", "docs", "auth-broker"}

  // `None` for a missing key, as dict.get gives it.
  function Get(fields: map<string, Json>, key: string): Json {
    if key in fields then fields[key] else Null
  }

  // Python's `value == 1`: true for the number in any numeric type, and for True.
  predicate EqualsOne(value: Json) {
    value == Int(1) || value == Real(1.0) || value == Bool(true)
  }

  // ---------------------------------------------------------------- patterns

  predicate IsLowerHex(c: char) { '0' <= c <= '9' || 'a' <= c <= 'f' }

  predicate IsSha(text: string) { |text| == 40 && forall i :: 0 <= i < |text| ==> IsLowerHex(text[i]) }

  predicate IsDigest(text: string) {
    |text| == 71 && text[..7] == "sha256:" && forall i :: 7 <= i < |text| ==> IsLowerHex(text[i])
  }

  predicate IsRunId(text: string) {
    1 <= |text| <= 20 && '1' <= text[0] <= '9' && forall i :: 1 <= i < |text| ==> IsDecimalDigit(text[i])
  }

  predicate IsTag(text: string) {
    text != [] && forall i :: 0 <= i < |text| ==>
      IsDecimalDigit(text[i]) || 'A' <= text[i] <= 'Z' || 'a' <= text[i] <= 'z' || text[i] in {'_', '.', '-'}
  }

  predicate StartsWith(text: string, prefix: string) { prefix <= text }

  // ---------------------------------------------------------------- images

  function ExpectedRepository(service: string): string { "ghcr.io/alexj11324/orvilo-" + service }

  function LegacyRepository(service: string): string { "ghcr.io/alexj11324/patchbay-" + service }

  predicate Immutable(repository: string, image: string) {
    StartsWith(image, repository + "@") && IsDigest(image[|repository| + 1..])
  }

  predicate Tagged(repository: string, image: string) {
    StartsWith(image, repository + ":") && IsTag(image[|repository| + 1..])
  }

  predicate AllowedImage(service: string, image: string) {
    Immutable(ExpectedRepository(service), image)
  }

  predicate AllowedBootstrapImage(service: string, image: string) {
    || Immutable(ExpectedRepository(service), image) || Tagged(ExpectedRepository(service), image)
    || Immutable(LegacyRepository(service), image) || Tagged(LegacyRepository(service), image)
  }

  predicate AllowedAs(bootstrap: bool, service: string, image: string) {
    if bootstrap then AllowedBootstrapImage(service, image) else AllowedImage(service, image)
  }

  predicate AllowedImages(bootstrap: bool, images: Json) {
    && images.Obj? && images.fields.Keys == SERVICES
    && forall service :: service in SERVICES ==>
         images.fields[service].Str? && AllowedAs(bootstrap, service, images.fields[service].s)
  }

  function ImageNames(bootstrap: bool, images: Json): map<string, string>
    requires AllowedImages(bootstrap, images)
  {
    map service | service in SERVICES :: images.fields[service].s
  }

  // ---------------------------------------------------------------- validators

  function RunIdText(value: Json): string {
    match value
    case Str(s) => s
    case Int(n) => if n < 0 then "-" + Decimal(-n) else Decimal(n)
    case Bool(b) => if b then "True" else "False"
    case _ => ""
  }

  function ValidateDeployRequest(value: Json): Result<Manifest> {
    if !value.Obj? then Refused("deployment request must be a JSON object")
    else
      var fields := value.fields;
      var sha := Get(fields, "source_sha");
      var images := Get(fields, "images");
      var runId := RunIdText(Get(fields, "workflow_run_id"));
      if !EqualsOne(Get(fields, "schema_version")) || Get(fields, "action") != Str("deploy") then
        Refused("unsupported deployment protocol")
      else if Get(fields, "repository") != Str(REPOSITORY) then
        Refused("deployment repository does not match the production allow-list")
      else if !(sha.Str? && IsSha(sha.s)) then Refused("source_sha must be a 40-character lowercase Git SHA")
      else if !(images.Obj? && images.fields.Keys == SERVICES) then
        Refused("deployment must contain exactly backend, web, docs, and auth-broker")
      else if !AllowedImages(false, images) then Refused("image is outside the allow-list")
      else if !IsRunId(runId) then Refused("workflow_run_id must be a positive GitHub Actions run ID")
      else Ok(Manifest(sha.s, runId, ImageNames(false, images), false))
  }

  // What a stored manifest is used for: commit, images and the bootstrap flag.
  datatype Stored = Stored(sourceSha: string, images: map<string, string>, bootstrap: bool)

  function ValidateStoredManifest(value: Json): Result<Stored> {
    if !value.Obj? || !EqualsOne(Get(value.fields, "schema_version")) then
      Refused("stored deployment manifest is invalid")
    else
      var sha := Get(value.fields, "source_sha");
      var images := Get(value.fields, "images");
      var bootstrap := Get(value.fields, "bootstrap") == Bool(true);
      if !(sha.Str? && IsSha(sha.s)) then Refused("source_sha must be a 40-character lowercase Git SHA")
      else if !(images.Obj? && images.fields.Keys == SERVICES) then
        Refused("stored deployment image set is incomplete")
      else if !AllowedImages(bootstrap, images) then Refused("stored image is outside the allow-list")
      else Ok(Stored(sha.s, ImageNames(bootstrap, images), bootstrap))
  }

  // The dictionary that is written to history and to current.json.
  function ToJson(manifest: Manifest): Json {
    Obj(map[
      "schema_version" := Int(1),
      "action" := Str("deploy"),
      "repository" := Str(REPOSITORY),
      "source_sha" := Str(manifest.sourceSha),
      "workflow_run_id" := Str(manifest.workflowRunId),
      "images" := Obj(map service | service in manifest.images :: Str(manifest.images[service])),
      "bootstrap" := Bool(manifest.bootstrap)])
  }

  function StoredOf(manifest: Manifest): Stored {
    Stored(manifest.sourceSha, manifest.images, manifest.bootstrap)
  }

  // ---------------------------------------------------------------- laws

  lemma ToJsonFields(manifest: Manifest)
    ensures var fields := ToJson(manifest).fields;
      && Get(fields, "schema_version") == Int(1) && Get(fields, "action") == Str("deploy")
      && Get(fields, "repository") == Str(REPOSITORY) && Get(fields, "source_sha") == Str(manifest.sourceSha)
      && Get(fields, "workflow_run_id") == Str(manifest.workflowRunId)
      && Get(fields, "bootstrap") == Bool(manifest.bootstrap)
      && Get(fields, "images") == Obj(map service | service in manifest.images :: Str(manifest.images[service]))
  {
    assert |"schema_version"| == 14 && |"action"| == 6 && |"repository"| == 10 && |"source_sha"| == 10
      && |"workflow_run_id"| == 15 && |"images"| == 6 && |"bootstrap"| == 9;
    assert "action"[0] != "images"[0] && "repository"[0] != "source_sha"[0];
  }

  predicate WellFormedManifest(manifest: Manifest) {
    && IsSha(manifest.sourceSha) && manifest.images.Keys == SERVICES
    && forall service :: service in SERVICES ==> AllowedAs(manifest.bootstrap, service, manifest.images[service])
  }

  // A manifest re-validates from disk, and only a well-formed one does.
  lemma StoredManifestReadsBack(manifest: Manifest)
    ensures WellFormedManifest(manifest) ==> ValidateStoredManifest(ToJson(manifest)) == Ok(StoredOf(manifest))
    ensures !WellFormedManifest(manifest) ==> ValidateStoredManifest(ToJson(manifest)).Refused?
  {
    ToJsonFields(manifest);
    ImagesReadBack(manifest);
  }

  lemma ImagesReadBack(manifest: Manifest)
    ensures var images := Obj(map service | service in manifest.images :: Str(manifest.images[service]));
      && (images.fields.Keys == SERVICES <==> manifest.images.Keys == SERVICES)
      && (IsSha(manifest.sourceSha) ==> (WellFormedManifest(manifest) <==> AllowedImages(manifest.bootstrap, images)))
      && (AllowedImages(manifest.bootstrap, images) ==> ImageNames(manifest.bootstrap, images) == manifest.images)
  {
    var images := Obj(map service | service in manifest.images :: Str(manifest.images[service]));
    assert images.fields.Keys == manifest.images.Keys;
    if AllowedImages(manifest.bootstrap, images) {
      assert ImageNames(manifest.bootstrap, images).Keys == manifest.images.Keys;
    }
  }

  lemma AcceptedIsWellFormed(request: Json)
    requires ValidateDeployRequest(request).Ok?
    ensures var manifest := ValidateDeployRequest(request).value;
      WellFormedManifest(manifest) && !manifest.bootstrap && IsRunId(manifest.workflowRunId)
  {
  }

  lemma WellFormedIsAccepted(manifest: Manifest)
    requires WellFormedManifest(manifest) && !manifest.bootstrap && IsRunId(manifest.workflowRunId)
    ensures ValidateDeployRequest(ToJson(manifest)) == Ok(manifest)
  {
    ToJsonFields(manifest);
    var images := Get(ToJson(manifest).fields, "images");
    assert images.fields.Keys == manifest.images.Keys;
    assert AllowedImages(false, images);
    assert ImageNames(false, images) == manifest.images;
  }

  // Whatever request is accepted, what is written for it reads back as the same deployment,
  // pins all four services to digests of the allow-listed repositories, and is itself a
  // request that normalizes to the same manifest.
  lemma AcceptedRequestReadsBack(request: Json)
    requires ValidateDeployRequest(request).Ok?
    ensures var manifest := ValidateDeployRequest(request).value;
      && (forall service :: service in SERVICES ==> AllowedImage(service, manifest.images[service]))
      && ValidateStoredManifest(ToJson(manifest)) == Ok(StoredOf(manifest))
      && ValidateDeployRequest(ToJson(manifest)) == Ok(manifest)
  {
    var manifest := ValidateDeployRequest(request).value;
    AcceptedIsWellFormed(request);
    StoredManifestReadsBack(manifest);
    WellFormedIsAccepted(manifest);
  }

  // A numeric run id is accepted exactly when it is positive and has at most twenty digits.
  lemma NumericRunIds(n: int)
    ensures IsRunId(RunIdText(Int(n))) <==> 0 < n < Pow10(20)
  {
    if n < 0 {
      assert RunIdText(Int(n))[0] == '-';
    } else {
      DecimalShape(n);
      var length := |Decimal(n)|;
      if n > 0 {
        if length <= 20 { Pow10Grows(length, 20); } else { Pow10Grows(20, length - 1); }
        assert IsDecimalDigit(Decimal(n)[0]);
      }
    }
  }
}
