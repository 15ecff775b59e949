# Standalone edge node enablement: validation, gating and serialization

A Dafny model of the decision logic in the command-line installer that
prepares a bootable USB drive for an Edge Microvisor Toolkit standalone node
(`standalone-node/esc/Edge_Microvisor_Toolkit_Standalone_Node_Enablement.py`).
The installer unpacks an archive, checks that four files are present, asks
the operator for proxy settings, an SSH key and credentials, validates them,
writes a `key="value"` configuration file, lists disks and hands over to an
external script. The model covers the pure parts of that workflow:

- the three input validators (`validate_proxy`, `validate_ssh_key`,
  `validate_no_proxy`). Each is stated two ways. The first is a ghost
  predicate that reads the Python regular expression literally: a split of
  the subject into the parts of the pattern, with Python's `$` allowing one
  final line feed. The second is an executable checker that scans
  deterministically. A lemma proves the two equal. The `\s` class is
  `Regex.IsUnicodeSpace`, which holds for exactly the characters where
  Python's `str.isspace()` holds;
- the text `update_proxy_file` writes (`ConfigFile`). It comes with a parser
  and a round trip that holds exactly when no answer contains a line feed;
- the acceptance gate of `install_standalone_edge_node_setup_script`
  (`InstallGate.Gate`). It maps the set of files present and the six answers
  to the configuration text, or to the first failing check. Its contract
  lists every failing check in source order (`Failures`) and says the gate
  reports the head of that list;
- the edit loop of `masked_input` (`MaskedInput`). It is a fold over the
  keystrokes that yields the password and the echo writes, plus a
  `while`-loop method that follows the source and is proved equal to the fold;
- the line filter of `run_lsblk` (`DiskFilter`).

Modules: `Wrappers` (Option/Result), `Text` (join, split, substring and
index search with Python's meaning), `Regex` (character classes and `$`),
`ProxyValidator`, `SshKeyValidator`, `NoProxyValidator`, `ConfigFile`,
`InstallGate`, `MaskedInput`, `DiskFilter`.

Behaviour of the code worth knowing (the model follows the code):

- `validate_ssh_key` checks only the first character of the key blob. The
  ` ?(.*)` that follows takes the rest of the line. So `ssh-rsa AA BB!! ` is
  accepted (`SshKeyValidator.AcceptsNonBase64AfterBlob`), even though one
  could read the pattern as rejecting a blob with characters outside base64.
- All three validators accept one final line feed because of `$`. For
  example `http://example.com\n` is a valid proxy, so "no whitespace
  anywhere" is not quite true of accepted proxies.
- The configuration round trip strips `key="` and the last `"` from a line.
  A value that contains double quotes therefore reads back intact. Only a
  line feed in a value breaks the file layout (`ConfigFile.ConfigRoundTripIff`).

## Model

| member | source | states |
|---|---|---|
| Regex.DollarBoundary | standalone-node/esc/Edge_Microvisor_Toolkit_Standalone_Node_Enablement.py:115 | if a match that contains no line feed is followed by what `$` allows, it covers exactly the subject minus one final line feed |
| ProxyValidator.HostOkCorrect | standalone-node/esc/Edge_Microvisor_Toolkit_Standalone_Node_Enablement.py:114 | the host alternative `[A-Za-z0-9.-]+\.[A-Za-z]{2,}\|localhost` (as backtracking resolves it) holds exactly when the host is `localhost`, or it has only host characters and its last dot is not first and is followed by at least two ASCII letters |
| ProxyValidator.HostPortOkCorrect | standalone-node/esc/Edge_Microvisor_Toolkit_Standalone_Node_Enablement.py:114-115 | splitting at the first colon accepts exactly a host followed by an optional `:` and 1 to 5 digits |
| ProxyValidator.AnchoredHostPortCorrect | standalone-node/esc/Edge_Microvisor_Toolkit_Standalone_Node_Enablement.py:114-115 | testing the text after the scheme, minus one final line feed, is the same as host, port and `$` |
| ProxyValidator.SchemeLength | standalone-node/esc/Edge_Microvisor_Toolkit_Standalone_Node_Enablement.py:113 | the two scheme alternatives cannot both apply, and they fix where the host starts |
| ProxyValidator.ValidateProxyCorrect | standalone-node/esc/Edge_Microvisor_Toolkit_Standalone_Node_Enablement.py:111-117 | the executable checker accepts exactly the strings the anchored proxy pattern matches |
| ProxyValidator.AcceptsDomain | standalone-node/esc/Edge_Microvisor_Toolkit_Standalone_Node_Enablement.py:111-117 | `http://example.com` is accepted |
| ProxyValidator.AcceptsFinalLineFeed | standalone-node/esc/Edge_Microvisor_Toolkit_Standalone_Node_Enablement.py:115 | `http://example.com` followed by a line feed is accepted |
| ProxyValidator.AcceptsLocalhost | standalone-node/esc/Edge_Microvisor_Toolkit_Standalone_Node_Enablement.py:114-115 | `http://localhost:3128` is accepted |
| ProxyValidator.RejectsNumericHost | standalone-node/esc/Edge_Microvisor_Toolkit_Standalone_Node_Enablement.py:114 | `https://10.0.0.1:8080` is rejected because the last label is not letters |
| ProxyValidator.RejectsLongPort | standalone-node/esc/Edge_Microvisor_Toolkit_Standalone_Node_Enablement.py:115 | a six-digit port is rejected |
| ProxyValidator.RejectsOtherScheme | standalone-node/esc/Edge_Microvisor_Toolkit_Standalone_Node_Enablement.py:113 | `ftp://example.com` is rejected |
| SshKeyValidator.CommentTailCorrect | standalone-node/esc/Edge_Microvisor_Toolkit_Standalone_Node_Enablement.py:123 | ` ?(.*)$` matches exactly the texts with no line feed before their last character |
| SshKeyValidator.BlobAndCommentCorrect | standalone-node/esc/Edge_Microvisor_Toolkit_Standalone_Node_Enablement.py:123 | blob plus comment matches exactly when the first character is base64 and no line feed comes before the end |
| SshKeyValidator.KeyTypeLength | standalone-node/esc/Edge_Microvisor_Toolkit_Standalone_Node_Enablement.py:123 | a key type followed by a space is exactly the `ssh-rsa ` or `ssh-ed25519 ` prefix |
| SshKeyValidator.ValidateSshKeyCorrect | standalone-node/esc/Edge_Microvisor_Toolkit_Standalone_Node_Enablement.py:119-125 | the checker accepts exactly the empty key and the strings the anchored key pattern matches |
| SshKeyValidator.AcceptsKeyWithComment | standalone-node/esc/Edge_Microvisor_Toolkit_Standalone_Node_Enablement.py:119-125 | an ed25519 key with a comment is accepted |
| SshKeyValidator.AcceptsNonBase64AfterBlob | standalone-node/esc/Edge_Microvisor_Toolkit_Standalone_Node_Enablement.py:123 | `ssh-rsa AA BB!! ` is accepted, because only the first blob character is constrained |
| SshKeyValidator.RejectsOtherKeyType | standalone-node/esc/Edge_Microvisor_Toolkit_Standalone_Node_Enablement.py:123 | `ssh-dsa AAAA` is rejected |
| NoProxyValidator.TokenListHasNoNewline | standalone-node/esc/Edge_Microvisor_Toolkit_Standalone_Node_Enablement.py:130 | a string matching `[^,\s]+(,[^,\s]+)*` contains no line feed |
| NoProxyValidator.TokenListCorrect | standalone-node/esc/Edge_Microvisor_Toolkit_Standalone_Node_Enablement.py:130 | a string is a comma-join of tokens exactly when every piece of its comma split is a token |
| NoProxyValidator.ValidateNoProxyCorrect | standalone-node/esc/Edge_Microvisor_Toolkit_Standalone_Node_Enablement.py:127-131 | the split-and-check accepts exactly the empty string and the token lists followed by what `$` allows |
| NoProxyValidator.SplitShape | standalone-node/esc/Edge_Microvisor_Toolkit_Standalone_Node_Enablement.py:130 | after the first piece, the comma-split pieces are all tokens (and the first has only token characters) exactly when the text has no whitespace, no doubled comma and no trailing comma |
| NoProxyValidator.NoProxyShape | standalone-node/esc/Edge_Microvisor_Toolkit_Standalone_Node_Enablement.py:127-131 | a non-empty value is accepted exactly when, minus one final line feed, it is non-empty, has no whitespace and no leading, trailing or doubled comma |
| NoProxyValidator.AcceptsMixedList | standalone-node/esc/Edge_Microvisor_Toolkit_Standalone_Node_Enablement.py:127-131 | `localhost,10.0.0.1,.corp` is accepted |
| NoProxyValidator.RejectsEmbeddedSpace | standalone-node/esc/Edge_Microvisor_Toolkit_Standalone_Node_Enablement.py:130 | `a, b` is rejected |
| NoProxyValidator.RejectsEmptyEntry | standalone-node/esc/Edge_Microvisor_Toolkit_Standalone_Node_Enablement.py:130 | `a,,b` is rejected |
| NoProxyValidator.AcceptsFinalLineFeed | standalone-node/esc/Edge_Microvisor_Toolkit_Standalone_Node_Enablement.py:130 | `a,b` followed by a line feed is accepted |
| ConfigFile.AssignmentRoundTrip | standalone-node/esc/Edge_Microvisor_Toolkit_Standalone_Node_Enablement.py:137-145 | stripping `key="` and the last `"` from a written line gives back the value, even one that contains quotes |
| ConfigFile.ConfigLines | standalone-node/esc/Edge_Microvisor_Toolkit_Standalone_Node_Enablement.py:137-145 | there are nine lines, and line i reads back under the i-th key as the i-th field; so the keys come in the fixed order and each upper-case proxy line repeats its lower-case value |
| ConfigFile.ConfigTextLines | standalone-node/esc/Edge_Microvisor_Toolkit_Standalone_Node_Enablement.py:136-145 | with no line feed in any answer, the file splits into exactly the nine lines followed by an empty remainder |
| ConfigFile.ConfigRoundTrip | standalone-node/esc/Edge_Microvisor_Toolkit_Standalone_Node_Enablement.py:137-145 | parsing the written text recovers the six answers when none contains a line feed |
| ConfigFile.LineBreakBreaksRoundTrip | standalone-node/esc/Edge_Microvisor_Toolkit_Standalone_Node_Enablement.py:137-145 | a line feed in any answer adds a line, and the text no longer reads back |
| ConfigFile.ConfigRoundTripIff | standalone-node/esc/Edge_Microvisor_Toolkit_Standalone_Node_Enablement.py:137-145 | the round trip holds exactly when no answer contains a line feed |
| InstallGate.FirstMissing | standalone-node/esc/Edge_Microvisor_Toolkit_Standalone_Node_Enablement.py:225-241 | reports nothing exactly when every required file is present; otherwise reports the first absent file in list order |
| InstallGate.CheckAnswers | standalone-node/esc/Edge_Microvisor_Toolkit_Standalone_Node_Enablement.py:243-288 | once the files are present: Ok exactly when every answer passes its check, and then the text is the configuration text; otherwise the error is the first failing answer check in prompt order |
| InstallGate.Gate | standalone-node/esc/Edge_Microvisor_Toolkit_Standalone_Node_Enablement.py:225-288 | Ok exactly when no check fails, and then the text is the configuration text; otherwise the error is the first failing check in source order (files, HTTP proxy, HTTPS proxy, no-proxy list, SSH key, credentials) |
| InstallGate.GateAcceptsIff | standalone-node/esc/Edge_Microvisor_Toolkit_Standalone_Node_Enablement.py:236-280 | the gate succeeds exactly when all four files are present, each proxy is blank or valid, the no-proxy list and key are valid, and user name and password are both non-empty |
| InstallGate.FirstFailureDecides | standalone-node/esc/Edge_Microvisor_Toolkit_Standalone_Node_Enablement.py:236-280 | answers to prompts after the failing check cannot change the outcome; a missing file is reported whatever the answers |
| InstallGate.BlankOptionalAnswersAccepted | standalone-node/esc/Edge_Microvisor_Toolkit_Standalone_Node_Enablement.py:243-288 | with all files present, blank optional answers and credentials `admin`/`secret`, the configuration is produced |
| InstallGate.MissingLogScriptReported | standalone-node/esc/Edge_Microvisor_Toolkit_Standalone_Node_Enablement.py:225-241 | if only `edgenode-logs-collection.sh` is missing, the run stops and names it, whatever the answers |
| MaskedInput.StepConsistent | standalone-node/esc/Edge_Microvisor_Toolkit_Standalone_Node_Enablement.py:428-436 | one keystroke keeps the buffer free of terminators and backspaces, and keeps its length equal to asterisks written minus asterisks erased |
| MaskedInput.Run | standalone-node/esc/Edge_Microvisor_Toolkit_Standalone_Node_Enablement.py:424-436 | the edit loop keeps that invariant, and only ever appends writes |
| MaskedInput.MaskedInput | standalone-node/esc/Edge_Microvisor_Toolkit_Standalone_Node_Enablement.py:424-442 | the password has no terminator or backspace character, and asterisks minus erasures equals its length |
| MaskedInput.RunStopsAtTerminator | standalone-node/esc/Edge_Microvisor_Toolkit_Standalone_Node_Enablement.py:425-427 | keystrokes after the first `\r` or `\n` are never read |
| MaskedInput.IgnoresKeysAfterTerminator | standalone-node/esc/Edge_Microvisor_Toolkit_Standalone_Node_Enablement.py:425-427 | the entry depends only on the keystrokes up to and including the first terminator |
| MaskedInput.RunSnoc | standalone-node/esc/Edge_Microvisor_Toolkit_Standalone_Node_Enablement.py:424-436 | one more keystroke that is not a terminator is one more step |
| MaskedInput.BackspaceErasesLast | standalone-node/esc/Edge_Microvisor_Toolkit_Standalone_Node_Enablement.py:428-432 | a backspace or delete removes the last buffered character, and does nothing on an empty buffer |
| MaskedInput.TypedVerbatim | standalone-node/esc/Edge_Microvisor_Toolkit_Standalone_Node_Enablement.py:433-436 | without backspaces the password is exactly what was typed, with one asterisk per character |
| MaskedInput.ReadMasked | standalone-node/esc/Edge_Microvisor_Toolkit_Standalone_Node_Enablement.py:419-442 | the loop as written returns the fold's password, and writes the fold's echoes followed by the final line feed |
| Text.Contains | standalone-node/esc/Edge_Microvisor_Toolkit_Standalone_Node_Enablement.py:161 | `pat in s` holds exactly when some index starts an occurrence of `pat` |
| DiskFilter.DiskLines | standalone-node/esc/Edge_Microvisor_Toolkit_Standalone_Node_Enablement.py:160-161 | a line is in the result exactly when it is an input line that contains `disk`; the result is no longer than the input |
| DiskFilter.DiskLinesSingle | standalone-node/esc/Edge_Microvisor_Toolkit_Standalone_Node_Enablement.py:160-161 | one line is kept exactly when it contains `disk` |
| DiskFilter.DiskLinesAppend | standalone-node/esc/Edge_Microvisor_Toolkit_Standalone_Node_Enablement.py:160-161 | filtering commutes with concatenation, so the result is the disk lines in their original order |
| DiskFilter.DiskReportLines | standalone-node/esc/Edge_Microvisor_Toolkit_Standalone_Node_Enablement.py:160-162 | the joined report splits back into exactly the selected lines; an empty selection gives an empty report |

## Left out

- Searching the working tree for `sen-installation-files.tar.gz` and running `tar` (lines 190-223): these are file-system and subprocess calls. The model starts from the set of files present after unpacking, which `InstallGate.Gate` takes as a parameter.
- `os.listdir` (line 233): its result is the `present` parameter. List membership is modelled as set membership.
- Prompting with `input()` (lines 244-276): the answers are parameters. `input()` strips the line feed, so in the real workflow the `$` final-line-feed allowance is never exercised by the prompts.
- The password reaches the gate as a string. `MaskedInput` models how that string is produced from keystrokes, but the two are not composed into one function.
- Opening and writing `config-file`, and catching `FileNotFoundError` (lines 136, 149-150): this is I/O. Only the text is modelled (`ConfigFile.ConfigText`).
- Running `lsblk` and its error paths (lines 152-158, 163-170): subprocess I/O. `str.splitlines()` (line 160) is also left out: `DiskFilter` takes the already-split lines.
- The disk prompt, `sudo ./bootable-usb-prepare.sh` and its exit status (lines 292-328): terminal and subprocess I/O.
- Raw terminal mode via `termios`/`tty` and restoring it (lines 416-421, 438): terminal I/O. Only the final line feed written in the `finally` block is modelled.
- MaskedInput.MaskedInput: requires that the key stream contain a terminator. At end of input `read(1)` returns an empty string, which the source buffers and echoes forever, so the source never returns in that case.
- Overwriting the password after use (lines 146-148, 443-445): it has no observable effect on the values computed.
- Logging, coloured output, creating the log directory, exception wrapping and status reporting in the constructor, `main_install`, `install`, `verify_installation`, `main_post_install`, `main_uninstall` and the module-level `main_install`, `verify_install` and `main_uninstall` (lines 35-108, 178-188, 330-412). This includes the empty `cleanup` and `verify_post_install`. It is glue around the modelled decisions; the raised exceptions become `InstallGate.GateError` values.
- `fuzz_Edge_microvisor.py`: it only checks that the validators return a boolean for any text, which holds for every total Dafny function.
- `compile.py`: build configuration.
