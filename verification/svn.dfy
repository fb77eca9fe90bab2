/**
 * The subversion bookkeeping of GSASIIpath: the highest revision number seen
 * in the '$Revision: n $' keywords of the loaded files (SetVersionNumber,
 * GetVersionNumber), and the proxy options added to every svn command
 * (setsvnProxy).
 */
module SvnState {
  import opened Wrappers
  import opened VersionStrings

  /**
   * The characters str.split() and str.strip() treat as whitespace: tab to
   * carriage return, the four separators 0x1C-0x1F, space, next line,
   * no-break space, and the Unicode space and separator characters.
   */
  predicate IsSpace(c: char)
  {
    || '\U{0009}' <= c <= '\U{000D}'
    || '\U{001C}' <= c <= '\U{0020}'
    || c == '\U{0085}' || c == '\U{00A0}' || c == '\U{1680}'
    || '\U{2000}' <= c <= '\U{200A}'
    || c == '\U{2028}' || c == '\U{2029}' || c == '\U{202F}' || c == '\U{205F}' || c == '\U{3000}'
  }

  predicate AllSpace(s: string)
  {
    forall i :: 0 <= i < |s| ==> IsSpace(s[i])
  }

  /** The number of leading characters of s that are not whitespace. */
  function WordLength(s: string): (n: nat)
    ensures n <= |s|
    ensures forall i :: 0 <= i < n ==> !IsSpace(s[i])
    ensures n < |s| ==> IsSpace(s[n])
  {
    if |s| == 0 || IsSpace(s[0]) then 0 else 1 + WordLength(s[1..])
  }

  /** s.split(): the maximal runs of non-whitespace characters, in order. */
  function Words(s: string): seq<string>
    decreases |s|
  {
    if |s| == 0 then []
    else if IsSpace(s[0]) then Words(s[1..])
    else
      var n := WordLength(s);
      [s[..n]] + Words(s[n..])
  }

  /**
   * int(RevString.split(':')[1].split()[0]); None stands for any exception
   * the bare except swallows: no colon, nothing after it, or no number.
   */
  function RevisionOf(rev: string): Option<int>
  {
    var parts := Split(rev, ':');
    if |parts| < 2 then None
    else
      var words := Words(parts[1]);
      if |words| == 0 then None else ParseInt(words[0])
  }

  /** The revision kept after SetVersionNumber(rev) with `version` seen so far. */
  function AfterRevision(version: int, rev: string): (v: int)
    ensures v >= version
    ensures RevisionOf(rev).None? ==> v == version
    ensures RevisionOf(rev).Some? ==> v >= RevisionOf(rev).value && (v == version || v == RevisionOf(rev).value)
  {
    match RevisionOf(rev)
    case None => version
    case Some(r) => if r > version then r else version
  }

  /** The revision kept after a series of SetVersionNumber calls. */
  function AfterAll(version: int, revs: seq<string>): int
    decreases |revs|
  {
    if |revs| == 0 then version else AfterAll(AfterRevision(version, revs[0]), revs[1..])
  }

  /**
   * After a series of calls the kept revision is the largest of the starting
   * value and every revision that parsed, whatever the order of the files.
   */
  lemma {:induction false} AfterAllIsMax(version: int, revs: seq<string>)
    ensures AfterAll(version, revs) >= version
    ensures forall k :: 0 <= k < |revs| && RevisionOf(revs[k]).Some? ==> AfterAll(version, revs) >= RevisionOf(revs[k]).value
    ensures AfterAll(version, revs) == version ||
      exists k :: 0 <= k < |revs| && RevisionOf(revs[k]) == Some(AfterAll(version, revs))
    decreases |revs|
  {
    if |revs| > 0 {
      var v := AfterRevision(version, revs[0]);
      AfterAllIsMax(v, revs[1..]);
      assert forall k :: 1 <= k < |revs| ==> revs[k] == revs[1..][k - 1];
      if AfterAll(v, revs[1..]) != v {
        var k :| 0 <= k < |revs[1..]| && RevisionOf(revs[1..][k]) == Some(AfterAll(v, revs[1..]));
        assert RevisionOf(revs[k + 1]) == Some(AfterAll(version, revs));
      } else if v != version {
        assert RevisionOf(revs[0]) == Some(AfterAll(version, revs));
      }
    }
  }

  /** The first word of a string that starts with a word followed by whitespace is that word. */
  lemma {:induction false} WordLengthOf(w: string, t: string)
    requires forall i :: 0 <= i < |w| ==> !IsSpace(w[i])
    requires |t| > 0 && IsSpace(t[0])
    ensures WordLength(w + t) == |w|
  {
    if |w| > 0 {
      assert (w + t)[1..] == w[1..] + t;
      WordLengthOf(w[1..], t);
    } else {
      assert w + t == t;
    }
  }

  /** The words of the text after the colon of an expanded keyword: the number, then the closing '$'. */
  lemma KeywordWords(w: string)
    requires |w| > 0 && forall i :: 0 <= i < |w| ==> !IsSpace(w[i])
    ensures Words(" " + w + " $") == [w, "$"]
  {
    LeadingSpace(w);
    NumberWord(w);
  }

  lemma LeadingSpace(w: string)
    ensures Words(" " + w + " $") == Words(w + " $")
  {
    assert (" " + w + " $")[1..] == w + " $";
  }

  lemma NumberWord(w: string)
    requires |w| > 0 && forall i :: 0 <= i < |w| ==> !IsSpace(w[i])
    ensures Words(w + " $") == [w, "$"]
  {
    WordLengthOf(w, " $");
    assert (w + " $")[..|w|] == w && (w + " $")[|w|..] == " $";
    ClosingDollar();
  }

  lemma ClosingDollar()
    ensures Words(" $") == ["$"]
  {
    assert " $"[1..] == "$";
    assert WordLength("$") == 1;
    assert "$"[..1] == "$" && "$"[1..] == "";
  }

  /** The text after the colon holds no colon: a space, digits, a space and '$'. */
  lemma KeywordBody(d: string)
    requires AllDigits(d)
    ensures ':' !in " " + d + " $"
  {
    var body := " " + d + " $";
    forall i | 0 <= i < |body|
      ensures body[i] != ':'
    {
      if 1 <= i <= |d| {
        assert body[i] == d[i - 1];
      }
    }
  }

  /**
   * An expanded keyword, any prefix without a colon followed by ': n $',
   * gives the revision n.
   */
  lemma ExpandedKeyword(prefix: string, n: nat)
    requires ':' !in prefix
    ensures RevisionOf(prefix + ": " + ShowNat(n) + " $") == Some(n)
  {
    var d := ShowNat(n);
    var body := " " + d + " $";
    KeywordBody(d);
    SplitFirst(body, ':', "");
    assert prefix + ": " + d + " $" == prefix + [':'] + body;
    SplitFirst(prefix, ':', body);
    KeywordWords(d);
    ParseShowNat(n);
  }

  /** A string without a colon, the unexpanded keyword among them, gives no revision and so changes nothing. */
  lemma UnexpandedKeyword(s: string)
    requires ':' !in s
    ensures RevisionOf(s) == None
    ensures AfterRevision(-1, s) == -1
  {
    SplitFirst(s, ':', "");
  }

  /** GetVersionNumber's answer: the revision, or "unknown" for 1000 and below. */
  datatype VersionReport = Known(revision: int) | Unknown

  /** The module-level revision record, -1 before any file reported. */
  class Revisions {
    var version: int

    constructor()
      ensures version == -1
    {
      version := -1;
    }

    /** SetVersionNumber(RevString) */
    method SetVersionNumber(revString: string)
      modifies this
      ensures version == AfterRevision(old(version), revString)
    {
      var parts := Split(revString, ':');
      if |parts| < 2 {
        return;
      }
      var words := Words(parts[1]);
      if |words| == 0 {
        return;
      }
      var parsed := ParseInt(words[0]);
      if parsed.Some? && parsed.value > version {
        version := parsed.value;
      }
    }

    /** GetVersionNumber(): the revision exceeds 1000, or it is reported as unknown. */
    method GetVersionNumber() returns (r: VersionReport)
      ensures r.Known? <==> version > 1000
      ensures r.Known? ==> r.revision == version
    {
      if version > 1000 {
        return Known(version);
      }
      return Unknown;
    }
  }

  /** s.lstrip() */
  function StripLeft(s: string): (r: string)
    ensures |r| <= |s| && r == s[|s| - |r|..] && AllSpace(s[..|s| - |r|])
    ensures |r| > 0 ==> !IsSpace(r[0])
  {
    if |s| > 0 && IsSpace(s[0]) then StripLeft(s[1..]) else s
  }

  /** s.rstrip() */
  function StripRight(s: string): (r: string)
    ensures |r| <= |s| && r == s[..|r|] && AllSpace(s[|r|..])
    ensures |r| > 0 ==> !IsSpace(r[|r| - 1])
  {
    if |s| > 0 && IsSpace(s[|s| - 1]) then StripRight(s[..|s| - 1]) else s
  }

  /** s.strip() */
  function Strip(s: string): string
  {
    StripRight(StripLeft(s))
  }

  /** strip() leaves nothing, or something that starts and ends with a non-space. */
  lemma StripEnds(s: string)
    ensures var r := Strip(s);
      |r| > 0 ==> !IsSpace(r[0]) && !IsSpace(r[|r| - 1])
  {
    var l := StripLeft(s);
    var r := StripRight(l);
    if |r| > 0 {
      assert r[0] == l[0];
    }
  }

  /** strip() removes whitespace only: s is what is left, surrounded by whitespace. */
  lemma StripSurround(s: string)
    ensures exists a, b :: s == a + Strip(s) + b && AllSpace(a) && AllSpace(b)
  {
    var l := StripLeft(s);
    var r := StripRight(l);
    var a, b := s[..|s| - |l|], l[|r|..];
    LeftPiece(s);
    RightPiece(l);
    Regroup(s, a, l, r, b);
    assert s == a + Strip(s) + b && AllSpace(a) && AllSpace(b);
  }

  lemma Regroup(s: string, a: string, l: string, r: string, b: string)
    requires s == a + l && l == r + b
    ensures s == a + r + b
  {
  }

  lemma LeftPiece(s: string)
    ensures s == s[..|s| - |StripLeft(s)|] + StripLeft(s) && AllSpace(s[..|s| - |StripLeft(s)|])
  {
    var l := StripLeft(s);
    assert l == s[|s| - |l|..];
  }

  lemma RightPiece(l: string)
    ensures l == StripRight(l) + l[|StripRight(l)|..] && AllSpace(l[|StripRight(l)|..])
  {
    var r := StripRight(l);
    assert r == l[..|r|];
  }

  /**
   * The option list of setsvnProxy(host, port, etc): the proxy host when the
   * stripped host is not blank, the port only then and when the stripped
   * port is not blank, then every extra item.
   */
  function ProxyCommands(host: string, port: string, etc: seq<string>): seq<string>
  {
    ProxyHost(Strip(host), Strip(port)) + etc
  }

  /** The options for an already stripped host and port. */
  function ProxyHost(h: string, p: string): seq<string>
  {
    if h != "" then
      [ConfigOption, HostSetting + h] + (if p != "" then [ConfigOption, PortSetting + p] else [])
    else []
  }

  const ConfigOption := "--config-option"
  const HostSetting := "servers:global:http-proxy-host="
  const PortSetting := "servers:global:http-proxy-port="

  /**
   * Two items for a host, two more for a port given with a host, then the
   * extra items in order; a port without a host adds nothing.
   */
  lemma ProxyShape(host: string, port: string, etc: seq<string>)
    ensures var r := ProxyCommands(host, port, etc);
      var n := (if Strip(host) != "" then 2 else 0) + (if Strip(host) != "" && Strip(port) != "" then 2 else 0);
      && |r| == n + |etc|
      && r[n..] == etc
      && (Strip(host) != "" ==> r[0] == "--config-option" && r[1] == "servers:global:http-proxy-host=" + Strip(host))
      && (Strip(host) != "" && Strip(port) != "" ==> r[2] == "--config-option" && r[3] == "servers:global:http-proxy-port=" + Strip(port))
      && (Strip(host) == "" ==> r == etc)
  {
  }

  /** The module-level list of svn proxy options. */
  class SvnProxy {
    var proxycmds: seq<string>

    constructor()
      ensures proxycmds == []
    {
      proxycmds := [];
    }

    /** setsvnProxy(host, port, etc): rebuilds the list from empty by appends. */
    method SetSvnProxy(host: string, port: string, etc: seq<string>)
      modifies this
      ensures proxycmds == ProxyCommands(host, port, etc)
    {
      var h := Strip(host);
      var p := Strip(port);
      proxycmds := [];
      AppendHost(h, p);
      assert proxycmds == ProxyHost(h, p);
      Extend(etc);
    }

    /** The host and port options of setsvnProxy, for the stripped host and port. */
    method AppendHost(h: string, p: string)
      modifies this
      ensures proxycmds == old(proxycmds) + ProxyHost(h, p)
    {
      ghost var start := proxycmds;
      if h != "" {
        proxycmds := proxycmds + [ConfigOption];
        proxycmds := proxycmds + [HostSetting + h];
        if p != "" {
          proxycmds := proxycmds + [ConfigOption];
          proxycmds := proxycmds + [PortSetting + p];
        }
      }
      assert proxycmds == start + ProxyHost(h, p);
    }

    /** The closing loop of setsvnProxy: every extra item is appended in order. */
    method Extend(etc: seq<string>)
      modifies this
      ensures proxycmds == old(proxycmds) + etc
    {
      var i := 0;
      while i < |etc|
        invariant 0 <= i <= |etc|
        invariant proxycmds == old(proxycmds) + etc[..i]
      {
        assert etc[..i + 1] == etc[..i] + [etc[i]];
        proxycmds := proxycmds + [etc[i]];
        i := i + 1;
      }
      assert etc[..|etc|] == etc;
    }
  }
}
