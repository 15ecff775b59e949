/** The decisions of `install_standalone_edge_node_setup_script` between
    unpacking the archive and writing the configuration: the required-file
    check, then the answers validated in prompt order. The first failing
    check ends the run; only when all pass is the configuration text produced. */
module InstallGate {
  import opened Wrappers
  import opened ConfigFile
  import opened ProxyValidator
  import opened SshKeyValidator
  import opened NoProxyValidator

  /** The files that must be present after unpacking, in checking order. */
  const RequiredFiles: seq<string> :=
    ["config-file", "bootable-usb-prepare.sh", "usb-bootable-files.tar.gz", "edgenode-logs-collection.sh"]

  /** Why the run stopped. */
  datatype GateError =
    | MissingFile(name: string)
    | InvalidHttpProxy
    | InvalidHttpsProxy
    | InvalidNoProxy
    | InvalidSshKey
    | EmptyCredentials

  /** One error for every required file that is absent, in list order. */
  ghost function MissingFiles(required: seq<string>, present: set<string>): seq<GateError> {
    if |required| == 0 then []
    else (if required[0] in present then [] else [MissingFile(required[0])]) + MissingFiles(required[1..], present)
  }

  /** The check loop over the required files: stops at the first absent one. */
  function FirstMissing(required: seq<string>, present: set<string>): (r: Option<string>)
    ensures r.None? <==> forall i :: 0 <= i < |required| ==> required[i] in present
    ensures r.None? <==> MissingFiles(required, present) == []
    ensures r.Some? ==> r.value in required && r.value !in present
    ensures r.Some? ==> MissingFiles(required, present)[0] == MissingFile(r.value)
  {
    if |required| == 0 then None
    else if required[0] in present then FirstMissing(required[1..], present)
    else Some(required[0])
  }

  /** A proxy prompt accepts a blank answer or a well-formed proxy. */
  ghost predicate ProxyAnswerOk(p: string) {
    p == "" || ProxyGrammar(p)
  }

  /** Every answer passes its check. */
  ghost predicate AnswersAcceptable(a: Answers) {
    && ProxyAnswerOk(a.httpProxy)
    && ProxyAnswerOk(a.httpsProxy)
    && NoProxyAccepted(a.noProxy)
    && SshKeyAccepted(a.sshKey)
    && a.userName != ""
    && a.password != ""
  }

  /** The answer checks that fail, in prompt order. */
  ghost function AnswerFailures(a: Answers): seq<GateError> {
    (if ProxyAnswerOk(a.httpProxy) then [] else [InvalidHttpProxy])
    + (if ProxyAnswerOk(a.httpsProxy) then [] else [InvalidHttpsProxy])
    + (if NoProxyAccepted(a.noProxy) then [] else [InvalidNoProxy])
    + (if SshKeyAccepted(a.sshKey) then [] else [InvalidSshKey])
    + (if a.userName != "" && a.password != "" then [] else [EmptyCredentials])
  }

  /** Every check that fails, in the order the installer performs them. */
  ghost function Failures(present: set<string>, a: Answers): seq<GateError> {
    MissingFiles(RequiredFiles, present) + AnswerFailures(a)
  }

  /** Each executable check agrees with the pattern it implements. */
  lemma ChecksAgree(a: Answers)
    ensures (a.httpProxy == "" || ValidateProxy(a.httpProxy)) <==> ProxyAnswerOk(a.httpProxy)
    ensures (a.httpsProxy == "" || ValidateProxy(a.httpsProxy)) <==> ProxyAnswerOk(a.httpsProxy)
    ensures ValidateNoProxy(a.noProxy) <==> NoProxyAccepted(a.noProxy)
    ensures ValidateSshKey(a.sshKey) <==> SshKeyAccepted(a.sshKey)
  {
    ValidateProxyCorrect(a.httpProxy);
    ValidateProxyCorrect(a.httpsProxy);
    ValidateNoProxyCorrect(a.noProxy);
    ValidateSshKeyCorrect(a.sshKey);
  }

  /** The prompts and their checks, once every required file is present. */
  function CheckAnswers(a: Answers): (r: Result<string, GateError>)
    ensures r.Ok? <==> AnswerFailures(a) == []
    ensures r.Ok? ==> r.value == ConfigText(a)
    ensures r.Err? ==> r.error == AnswerFailures(a)[0]
  {
    ChecksAgree(a);
    if a.httpProxy != "" && !ValidateProxy(a.httpProxy) then Err(InvalidHttpProxy)
    else if a.httpsProxy != "" && !ValidateProxy(a.httpsProxy) then Err(InvalidHttpsProxy)
    else if !ValidateNoProxy(a.noProxy) then Err(InvalidNoProxy)
    else if !ValidateSshKey(a.sshKey) then Err(InvalidSshKey)
    else if a.userName == "" || a.password == "" then Err(EmptyCredentials)
    else Ok(ConfigText(a))
  }

  /** From the files present after unpacking and the operator's answers to
      the configuration text, or the first failing check. */
  function Gate(present: set<string>, a: Answers): (r: Result<string, GateError>)
    ensures r.Ok? <==> Failures(present, a) == []
    ensures r.Ok? ==> r.value == ConfigText(a)
    ensures r.Err? ==> r.error == Failures(present, a)[0]
  {
    match FirstMissing(RequiredFiles, present)
    case Some(f) => Err(MissingFile(f))
    case None => CheckAnswers(a)
  }

  /** The gate succeeds exactly when all required files are present and
      every answer is acceptable. */
  lemma GateAcceptsIff(present: set<string>, a: Answers)
    ensures Gate(present, a).Ok? <==> (forall i :: 0 <= i < |RequiredFiles| ==> RequiredFiles[i] in present) && AnswersAcceptable(a)
  {
    var _ := FirstMissing(RequiredFiles, present);
  }

  /** The answers in prompt order. */
  function AnswerList(a: Answers): seq<string> {
    [a.httpProxy, a.httpsProxy, a.noProxy, a.sshKey, a.userName, a.password]
  }

  /** How many prompts have been answered when the check reporting `e` runs. */
  function PromptsAnswered(e: GateError): nat {
    match e
    case MissingFile(_) => 0
    case InvalidHttpProxy => 1
    case InvalidHttpsProxy => 2
    case InvalidNoProxy => 3
    case InvalidSshKey => 4
    case EmptyCredentials => 6
  }

  /** The answer checks stop at the first failure. */
  lemma CheckAnswersDecides(a: Answers, b: Answers, n: nat)
    requires CheckAnswers(a).Err? && n == PromptsAnswered(CheckAnswers(a).error)
    requires n >= 1 ==> a.httpProxy == b.httpProxy
    requires n >= 2 ==> a.httpsProxy == b.httpsProxy
    requires n >= 3 ==> a.noProxy == b.noProxy
    requires n >= 4 ==> a.sshKey == b.sshKey
    requires n >= 6 ==> a.userName == b.userName && a.password == b.password
    ensures CheckAnswers(b) == CheckAnswers(a)
  {
    match CheckAnswers(a).error
    case InvalidHttpProxy =>
    case InvalidHttpsProxy =>
    case InvalidNoProxy =>
    case InvalidSshKey =>
    case EmptyCredentials =>
  }

  /** The first failure decides: answers to prompts that come after the
      failing check cannot change the outcome. In particular a missing file
      is reported whatever the answers. */
  lemma FirstFailureDecides(present: set<string>, a: Answers, b: Answers)
    requires Gate(present, a).Err?
    requires AnswerList(a)[..PromptsAnswered(Gate(present, a).error)] == AnswerList(b)[..PromptsAnswered(Gate(present, a).error)]
    ensures Gate(present, b) == Gate(present, a)
  {
    match FirstMissing(RequiredFiles, present)
    case Some(_) =>
    case None =>
      var n := PromptsAnswered(CheckAnswers(a).error);
      SameEarlyAnswers(a, b, n);
      CheckAnswersDecides(a, b, n);
  }

  /** Equal answer prefixes mean equal early answers. */
  lemma SameEarlyAnswers(a: Answers, b: Answers, n: nat)
    requires n <= 6 && AnswerList(a)[..n] == AnswerList(b)[..n]
    ensures n >= 1 ==> a.httpProxy == b.httpProxy
    ensures n >= 2 ==> a.httpsProxy == b.httpsProxy
    ensures n >= 3 ==> a.noProxy == b.noProxy
    ensures n >= 4 ==> a.sshKey == b.sshKey
    ensures n >= 6 ==> a.userName == b.userName && a.password == b.password
  {
    forall i | 0 <= i < n ensures AnswerList(a)[i] == AnswerList(b)[i] {
      assert AnswerList(a)[..n][i] == AnswerList(b)[..n][i];
    }
    assert n >= 1 ==> AnswerList(a)[0] == AnswerList(b)[0];
    assert n >= 2 ==> AnswerList(a)[1] == AnswerList(b)[1];
    assert n >= 3 ==> AnswerList(a)[2] == AnswerList(b)[2];
    assert n >= 4 ==> AnswerList(a)[3] == AnswerList(b)[3];
    assert n >= 6 ==> AnswerList(a)[4] == AnswerList(b)[4] && AnswerList(a)[5] == AnswerList(b)[5];
  }

  /** All files present, blank proxies, no-proxy list and key, and
      non-empty credentials: the configuration is produced. */
  lemma BlankOptionalAnswersAccepted(present: set<string>)
    requires forall i :: 0 <= i < |RequiredFiles| ==> RequiredFiles[i] in present
    ensures Gate(present, Answers("", "", "", "", "admin", "secret")) == Ok(ConfigText(Answers("", "", "", "", "admin", "secret")))
  {
    var _ := FirstMissing(RequiredFiles, present);
  }

  /** Only the log-collection script missing: the run stops naming it. */
  lemma MissingLogScriptReported(a: Answers)
    ensures Gate({"config-file", "bootable-usb-prepare.sh", "usb-bootable-files.tar.gz"}, a) == Err(MissingFile("edgenode-logs-collection.sh"))
  {
    var present: set<string> := {"config-file", "bootable-usb-prepare.sh", "usb-bootable-files.tar.gz"};
    assert "edgenode-logs-collection.sh" !in present;
    assert MissingFiles(RequiredFiles, present)[0] == MissingFile("edgenode-logs-collection.sh");
  }
}
