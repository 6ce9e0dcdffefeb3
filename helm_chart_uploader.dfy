/**
 * Pushing a packaged chart to a Helm repository: the configuration checks
 * made before anything is opened, the request each repository type gets,
 * and the reading of the response code. Opening the connection, sending the
 * file and reading the error body are not modelled; the response code is an
 * input.
 */
module HelmChartUploader {
  import opened Wrappers
  import opened JavaStrings

  /** The repository kinds the uploader tells apart; any kind but these two is treated as ChartMuseum. */
  datatype RepositoryType = ChartMuseum | Artifactory | Nexus

  /** The `quarkus.helm.repository.*` group. */
  datatype HelmRepository = HelmRepository(
    push: bool,
    repositoryType: Option<RepositoryType>,
    url: Option<string>,
    username: Option<string>,
    password: Option<string>)

  datatype UploadError =
    | MissingUrl
    | MissingType
    | IncompleteCredentials
    | Rejected(responseCode: int)

  /** The HTTP request the uploader makes. */
  datatype Request = Request(httpMethod: string, url: string)

  const POST := "POST"
  const PUT := "PUT"
  /** `HttpURLConnection.HTTP_MULT_CHOICE`. */
  const HTTP_MULT_CHOICE := 300

  /** `Optional.filter(Strings::isNotNullOrEmpty).orElse(null)`: an empty string counts as unset. */
  function Credential(o: Option<string>): (r: Option<string>)
    ensures r.Some? <==> o.Some? && o.value != ""
    ensures r.Some? ==> r == o
  {
    if o.Some? && o.value != "" then o else None
  }

  function Username(repository: HelmRepository): Option<string>
  {
    Credential(repository.username)
  }

  function Password(repository: HelmRepository): Option<string>
  {
    Credential(repository.password)
  }

  /** `validate`: the URL first, then the type, then the pairing of username and password. */
  function Validate(repository: HelmRepository): (r: Option<UploadError>)
    ensures r.None? <==>
      && repository.url.Some? && repository.url.value != ""
      && repository.repositoryType.Some?
      && (Username(repository).Some? <==> Password(repository).Some?)
    ensures r == Some(MissingUrl) <==> repository.url.None? || repository.url.value == ""
  {
    if repository.url.None? || repository.url.value == "" then Some(MissingUrl)
    else if repository.repositoryType.None? then Some(MissingType)
    else if Username(repository).Some? != Password(repository).Some? then Some(IncompleteCredentials)
    else None
  }

  /** An empty username or password is as good as none: only one being non-empty fails. */
  lemma EmptyCredentialsAreUnset(repository: HelmRepository)
    requires repository.url.Some? && repository.url.value != "" && repository.repositoryType.Some?
    ensures Validate(repository.(username := Some(""), password := None)).None?
    ensures Validate(repository.(username := Some("user"), password := Some(""))) == Some(IncompleteCredentials)
    ensures Validate(repository.(username := None, password := Some("secret"))) == Some(IncompleteCredentials)
  {
  }

  /** `formatRepositoryURL`: the base URL with a `/` appended if missing, then the file name. */
  function RepositoryUrl(baseUrl: string, fileName: string): (r: string)
    ensures EndsWith(r, fileName)
    ensures StartsWith(r, baseUrl)
  {
    var r := AppendIfMissing(baseUrl, "/") + fileName;
    assert r[|r| - |fileName|..] == fileName;
    assert AppendIfMissing(baseUrl, "/")[..|baseUrl|] == baseUrl;
    assert r[..|baseUrl|] == AppendIfMissing(baseUrl, "/")[..|baseUrl|];
    r
  }

  /** `url.replaceAll("tar.gz$", "tgz")` on a URL that ends with `.tar.gz`. */
  function ShortExtension(url: string): (r: string)
  {
    if EndsWith(url, ".tar.gz") then url[..|url| - 6] + "tgz" else url
  }

  /** `deductConnectionByRepositoryType`: the method and URL per repository type. */
  function Connection(repositoryType: RepositoryType, baseUrl: string, fileName: string): Request
  {
    match repositoryType
    case Nexus => Request(PUT, ShortExtension(RepositoryUrl(baseUrl, fileName)))
    case Artifactory => Request(PUT, RepositoryUrl(baseUrl, fileName))
    case ChartMuseum => Request(POST, baseUrl)
  }

  /** The response code decides the outcome: 300 and above is a failure. */
  function Outcome(responseCode: int): (r: Option<UploadError>)
    ensures r.Some? <==> responseCode >= HTTP_MULT_CHOICE
  {
    if responseCode >= HTTP_MULT_CHOICE then Some(Rejected(responseCode)) else None
  }

  /**
   * `pushToHelmRepository`: the request that is sent, or why the push
   * failed. A configuration error stops it before any request exists;
   * otherwise the request is made and its response code is read.
   */
  function Push(repository: HelmRepository, fileName: string, responseCode: int): (r: Result<Request, UploadError>)
    ensures Validate(repository).Some? ==> r == Err(Validate(repository).value)
  {
    match Validate(repository)
    case Some(e) => Err(e)
    case None =>
      var request := Connection(repository.repositoryType.value, repository.url.value, fileName);
      match Outcome(responseCode)
      case Some(e) => Err(e)
      case None => Ok(request)
  }

  /** A URL ending in `.tar.gz` loses the `.tar` part; the rest of the URL is kept. */
  lemma ShortExtensionRenames(url: string)
    requires EndsWith(url, ".tar.gz")
    ensures var r := ShortExtension(url);
      && EndsWith(r, ".tgz")
      && r[..|r| - 4] == url[..|url| - 7]
      && |r| == |url| - 3
  {
    var r := ShortExtension(url);
    assert url[|url| - 7..][0] == '.';
    assert r[|r| - 4..] == ".tgz";
  }

  /** Nexus: PUT to the base URL, a `/`, and the file name with its `.tar.gz` shortened to `.tgz`. */
  lemma NexusRequest(baseUrl: string, name: string)
    requires EndsWith(baseUrl, "/")
    ensures Connection(Nexus, baseUrl, name + ".tar.gz") == Request(PUT, baseUrl + name + ".tgz")
  {
    var u := RepositoryUrl(baseUrl, name + ".tar.gz");
    assert u == baseUrl + name + ".tar.gz";
    assert EndsWith(u, ".tar.gz") by { assert u[|u| - 7..] == ".tar.gz"; }
    assert u[..|u| - 6] == baseUrl + name + ".";
  }

  /** The `/` is added only when the base URL lacks it, for both PUT repositories. */
  lemma SlashAddedOnce(baseUrl: string, fileName: string)
    ensures !EndsWith(baseUrl, "/") ==> RepositoryUrl(baseUrl, fileName) == baseUrl + "/" + fileName
    ensures EndsWith(baseUrl, "/") ==> RepositoryUrl(baseUrl, fileName) == baseUrl + fileName
  {
  }

  /** Artifactory keeps the file name as it is; ChartMuseum posts to the base URL itself. */
  lemma OtherRequests(baseUrl: string, fileName: string)
    ensures Connection(Artifactory, baseUrl, fileName).httpMethod == PUT
    ensures EndsWith(Connection(Artifactory, baseUrl, fileName).url, fileName)
    ensures Connection(ChartMuseum, baseUrl, fileName) == Request(POST, baseUrl)
  {
  }

  /** A valid repository with a response below 300 pushes the request its type calls for, and only then. */
  lemma PushSucceeds(repository: HelmRepository, fileName: string, responseCode: int)
    ensures Push(repository, fileName, responseCode).Ok? <==> Validate(repository).None? && responseCode < HTTP_MULT_CHOICE
    ensures Push(repository, fileName, responseCode).Ok? ==>
      Push(repository, fileName, responseCode).value
        == Connection(repository.repositoryType.value, repository.url.value, fileName)
  {
  }
}
