/** `validate_ssh_key`: the empty key is allowed; anything else must match
      ^(ssh-(rsa|ed25519)) ([A-Za-z0-9+/=]+) ?(.*)$
    read as a decomposition of the subject, and as a direct checker. */
module SshKeyValidator {
  import opened Text
  import opened Regex

  /** `ssh-(rsa|ed25519)` */
  predicate IsKeyType(t: string) {
    t == "ssh-rsa" || t == "ssh-ed25519"
  }

  /** ` ?(.*)$`: an optional space, any characters but a line feed, then
      what `$` allows. */
  ghost predicate IsCommentTail(u: string) {
    exists c, e :: 0 <= c <= e <= |u| && (u[..c] == "" || u[..c] == " ") && AllIn(u[c..e], IsDotChar) && DollarTail(u[e..])
  }

  /** `([A-Za-z0-9+/=]+) ?(.*)$`: a non-empty key blob, then the comment tail. */
  ghost predicate IsBlobAndComment(t: string) {
    exists b :: 0 < b <= |t| && AllIn(t[..b], IsBase64Char) && IsCommentTail(t[b..])
  }

  /** The strings the whole anchored pattern matches: a key type, one
      space, then the blob and comment. */
  ghost predicate SshKeyLine(s: string) {
    exists a :: 0 <= a < |s| && IsKeyType(s[..a]) && s[a] == ' ' && IsBlobAndComment(s[a + 1..])
  }

  /** What `validate_ssh_key` accepts: the empty string or a matching line. */
  ghost predicate SshKeyAccepted(s: string) {
    s == "" || SshKeyLine(s)
  }

  /** No line feed except possibly as the very last character. */
  predicate LineFeedOnlyAtEnd(t: string) {
    forall i :: 0 <= i < |t| - 1 ==> t[i] != '\n'
  }

  /** Length of the `ssh-rsa ` or `ssh-ed25519 ` prefix, or 0 when neither starts `s`. */
  function KeyPrefixLength(s: string): nat {
    if HasPrefix(s, "ssh-rsa ") then 8
    else if HasPrefix(s, "ssh-ed25519 ") then 12
    else 0
  }

  /** Executable `validate_ssh_key`: after the prefix only the first blob
      character is constrained, because ` ?(.*)` absorbs the rest of the line. */
  function ValidateSshKey(s: string): bool {
    if s == "" then true
    else
      var k := KeyPrefixLength(s);
      0 < k < |s| && IsBase64Char(s[k]) && LineFeedOnlyAtEnd(s[k + 1..])
  }

  /** The comment tail is any text with no line feed before its last character. */
  lemma CommentTailCorrect(u: string)
    ensures IsCommentTail(u) <==> LineFeedOnlyAtEnd(u)
  {
    if IsCommentTail(u) {
      var c, e :| 0 <= c <= e <= |u| && (u[..c] == "" || u[..c] == " ") && AllIn(u[c..e], IsDotChar) && DollarTail(u[e..]);
      forall i | 0 <= i < |u| - 1 ensures u[i] != '\n' {
        if i < c {
          assert u[i] == u[..c][i];
        } else {
          assert i < e;
          assert u[i] == u[c..e][i - c];
        }
      }
    }
    if LineFeedOnlyAtEnd(u) {
      var e := |DropFinalNewline(u)|;
      assert u[..0] == "";
      assert AllIn(u[0..e], IsDotChar) by {
        forall i | 0 <= i < e ensures u[0..e][i] != '\n' {
          assert u[0..e][i] == u[i];
        }
      }
    }
  }

  /** After the key type and space: one blob character, then a line with no
      line feed before its end. */
  lemma BlobAndCommentCorrect(t: string)
    ensures IsBlobAndComment(t) <==> (0 < |t| && IsBase64Char(t[0]) && LineFeedOnlyAtEnd(t[1..]))
  {
    if IsBlobAndComment(t) {
      var b :| 0 < b <= |t| && AllIn(t[..b], IsBase64Char) && IsCommentTail(t[b..]);
      assert t[0] == t[..b][0];
      CommentTailCorrect(t[b..]);
      forall i | 0 <= i < |t[1..]| - 1 ensures t[1..][i] != '\n' {
        if i + 1 < b {
          assert t[1..][i] == t[..b][i + 1];
          assert IsBase64Char(t[..b][i + 1]);
        } else {
          assert t[1..][i] == t[b..][i + 1 - b];
        }
      }
    }
    if 0 < |t| && IsBase64Char(t[0]) && LineFeedOnlyAtEnd(t[1..]) {
      CommentTailCorrect(t[1..]);
      assert AllIn(t[..1], IsBase64Char);
    }
  }

  /** The key-type alternatives followed by a space fix the prefix length. */
  lemma KeyTypeLength(s: string, a: nat)
    requires a < |s| && IsKeyType(s[..a]) && s[a] == ' '
    ensures KeyPrefixLength(s) == a + 1
  {
    assert s[..a + 1] == s[..a] + [' '];
    if a == 11 {
      assert s[4] == s[..a][4] == 'e';
    }
  }

  /** A recognised prefix is a key type followed by one space. */
  lemma PrefixIsKeyType(s: string)
    requires KeyPrefixLength(s) > 0
    ensures IsKeyType(s[..KeyPrefixLength(s) - 1]) && s[KeyPrefixLength(s) - 1] == ' '
  {
    var k := KeyPrefixLength(s);
    assert s[..k - 1] == s[..k][..k - 1];
    assert s[k - 1] == s[..k][k - 1];
  }

  /** A line the pattern matches passes the checker. */
  lemma SshKeyLineValidates(s: string)
    requires SshKeyLine(s)
    ensures ValidateSshKey(s)
  {
    var a :| 0 <= a < |s| && IsKeyType(s[..a]) && s[a] == ' ' && IsBlobAndComment(s[a + 1..]);
    KeyTypeLength(s, a);
    BlobAndCommentCorrect(s[a + 1..]);
    assert s[a + 1..][1..] == s[a + 2..];
  }

  /** A non-empty line the checker passes is one the pattern matches. */
  lemma ValidatedIsSshKeyLine(s: string)
    requires s != "" && ValidateSshKey(s)
    ensures SshKeyLine(s)
  {
    var k := KeyPrefixLength(s);
    PrefixIsKeyType(s);
    BlobAndCommentCorrect(s[k..]);
    assert s[k..][1..] == s[k + 1..];
    assert s[(k - 1) + 1..] == s[k..];
  }

  /** The executable checker accepts exactly the strings the validator accepts. */
  lemma ValidateSshKeyCorrect(s: string)
    ensures ValidateSshKey(s) <==> SshKeyAccepted(s)
  {
    if s != "" {
      if SshKeyLine(s) {
        SshKeyLineValidates(s);
      }
      if ValidateSshKey(s) {
        ValidatedIsSshKeyLine(s);
      }
    }
  }

  /** A key type, a blob and a comment are accepted. */
  lemma AcceptsKeyWithComment(s: string)
    requires s == "ssh-ed25519 AAAA my key"
    ensures ValidateSshKey(s)
  {
    var p, t := s[..12], s[12..];
    assert p == "ssh-ed25519 ";
    assert t == "AAAA my key";
    assert s == p + t;
    Ed25519Prefix(p, t);
    CommentedBlob(t);
    assert s[13..] == t[1..];
  }

  /** The ed25519 prefix is recognised as such. */
  lemma Ed25519Prefix(p: string, t: string)
    requires p == "ssh-ed25519 "
    ensures KeyPrefixLength(p + t) == 12
  {
    assert (p + t)[..12] == p;
    assert (p + t)[4] == 'e';
  }

  lemma CommentedBlob(t: string)
    requires t == "AAAA my key"
    ensures IsBase64Char(t[0]) && LineFeedOnlyAtEnd(t[1..])
  {
  }


  /** Only the first blob character is checked: whatever follows it on the
      line is taken by ` ?(.*)`, so a blob followed by a space and
      non-base64 text is accepted. */
  lemma AcceptsNonBase64AfterBlob(s: string)
    requires s == "ssh-rsa AA BB!! "
    ensures ValidateSshKey(s)
  {
    assert s[..8] == "ssh-rsa ";
    assert s[8] == 'A';
  }

  /** Key types other than rsa and ed25519 are rejected. */
  lemma RejectsOtherKeyType(s: string)
    requires s == "ssh-dsa AAAA"
    ensures !ValidateSshKey(s)
  {
    assert !HasPrefix(s, "ssh-rsa ") by { assert s[..8][4] == 'd'; }
    assert !HasPrefix(s, "ssh-ed25519 ");
  }
}
