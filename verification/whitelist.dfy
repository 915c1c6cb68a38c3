/**
  The split-tunnelling whitelist: a host bypasses the tunnel when it is, or lies below, a listed
  domain.  The code compares strings; the specification compares lists of labels.  Parsing and
  matching of IP literals are parameters, and so is the list of built-in domains.
 */
module Whitelisting {
  import opened Bytes

  function LowerChar(c: char): char {
    if 'A' <= c <= 'Z' then c + 32 as char else c
  }

  function Lower(s: string): (r: string)
    ensures |r| == |s| && forall i :: 0 <= i < |s| ==> r[i] == LowerChar(s[i])
  {
    seq(|s|, i requires 0 <= i < |s| => LowerChar(s[i]))
  }

  /** Two characters that are equal up to ASCII case. */
  ghost predicate SameLetter(a: char, b: char) {
    var x, y := a as int, b as int;
    x == y || (65 <= x <= 90 && y == x + 32) || (65 <= y <= 90 && x == y + 32)
  }

  ghost predicate SameUpToCase(s: string, t: string) {
    |s| == |t| && forall i :: 0 <= i < |s| ==> SameLetter(s[i], t[i])
  }

  /** Lower-casing identifies exactly the strings that differ only in ASCII case, and keeps them so. */
  lemma {:induction false} LowerExactly(s: string, t: string)
    ensures Lower(s) == Lower(t) <==> SameUpToCase(s, t)
    ensures SameUpToCase(s, Lower(s)) && forall i :: 0 <= i < |s| ==> !('A' <= Lower(s)[i] <= 'Z')
  {
    if Lower(s) == Lower(t) {
      assert forall i :: 0 <= i < |s| ==> Lower(s)[i] == Lower(t)[i];
    }
  }

  /** The Unicode White_Space property. */
  predicate IsSpace(c: char) {
    var n := c as int;
    0x09 <= n <= 0x0d || n == 0x20 || n == 0x85 || n == 0xa0 || n == 0x1680 || 0x2000 <= n <= 0x200a
    || n == 0x2028 || n == 0x2029 || n == 0x202f || n == 0x205f || n == 0x3000
  }

  function Trim(s: string): string {
    if s == "" then ""
    else if IsSpace(s[0]) then Trim(s[1..])
    else if IsSpace(s[|s| - 1]) then Trim(s[..|s| - 1])
    else s
  }

  /** Trimming cuts white space at both ends, all of it and nothing else. */
  lemma {:induction false} TrimExactly(s: string) returns (i: nat, j: nat)
    ensures i <= j <= |s| && Trim(s) == s[i..j]
    ensures forall k :: 0 <= k < i || j <= k < |s| ==> IsSpace(s[k])
    ensures i < j ==> !IsSpace(s[i]) && !IsSpace(s[j - 1])
    decreases |s|
  {
    if s == "" {
      i, j := 0, 0;
    } else if IsSpace(s[0]) {
      var t := s[1..];
      i, j := TrimExactly(t);
      assert t[i..j] == s[i + 1..j + 1];
      assert forall k :: 1 <= k < |s| ==> s[k] == t[k - 1];
      i, j := i + 1, j + 1;
    } else if IsSpace(s[|s| - 1]) {
      var t := s[..|s| - 1];
      i, j := TrimExactly(t);
      assert t[i..j] == s[i..j];
    } else {
      i, j := 0, |s|;
      assert s[0..|s|] == s;
    }
  }

  /** The parts of `s` between separators; always at least one. */
  function Split(s: string, c: char): (r: seq<string>)
    ensures r != []
  {
    if s == "" then [""]
    else
      var rest := Split(s[1..], c);
      if s[0] == c then [""] + rest else [[s[0]] + rest[0]] + rest[1..]
  }

  function Join(parts: seq<string>, c: char): string
    requires parts != []
  {
    if |parts| == 1 then parts[0] else parts[0] + [c] + Join(parts[1..], c)
  }

  predicate EndsWith(s: string, t: string) {
    |t| <= |s| && s[|s| - |t|..] == t
  }

  ghost predicate IsSuffix<T>(a: seq<T>, b: seq<T>) {
    |a| <= |b| && b[|b| - |a|..] == a
  }

  function Labels(s: string): seq<string> {
    Split(s, '.')
  }

  // -----------------------------------------------------------------------------------------
  // String suffixes and label suffixes
  // -----------------------------------------------------------------------------------------

  lemma {:induction false} SplitConcat(x: string, d: string, c: char)
    ensures Split(x + [c] + d, c) == Split(x, c) + Split(d, c)
    decreases |x|
  {
    var s := x + [c] + d;
    if x == "" {
      assert s[1..] == d;
    } else {
      assert s[1..] == x[1..] + [c] + d;
      SplitConcat(x[1..], d, c);
    }
  }

  lemma {:induction false} JoinSplit(s: string, c: char)
    ensures Join(Split(s, c), c) == s
    decreases |s|
  {
    if s != "" {
      JoinSplit(s[1..], c);
      var rest, all := Split(s[1..], c), Split(s, c);
      if s[0] == c {
        assert all[1..] == rest;
      } else {
        assert all[1..] == rest[1..];
      }
      assert s == [s[0]] + s[1..];
    }
  }

  lemma {:induction false} JoinConcat(a: seq<string>, b: seq<string>, c: char)
    requires a != [] && b != []
    ensures Join(a + b, c) == Join(a, c) + [c] + Join(b, c)
    decreases |a|
  {
    if |a| == 1 {
      assert (a + b)[1..] == b;
    } else {
      assert (a + b)[1..] == a[1..] + b;
      JoinConcat(a[1..], b, c);
    }
  }

  /** The string test never matches across a label boundary, and misses no label suffix. */
  lemma {:induction false} SuffixIsLabelSuffix(host: string, domain: string)
    ensures host == domain || EndsWith(host, "." + domain) <==> IsSuffix(Labels(domain), Labels(host))
  {
    var h, d := Labels(host), Labels(domain);
    if EndsWith(host, "." + domain) {
      var x := host[..|host| - |domain| - 1];
      assert host == x + ("." + domain) == x + "." + domain;
      SplitConcat(x, domain, '.');
      assert h == Labels(x) + d;
    }
    if IsSuffix(d, h) {
      var pre := h[..|h| - |d|];
      JoinSplit(host, '.');
      JoinSplit(domain, '.');
      assert h == pre + d;
      if pre != [] {
        JoinConcat(pre, d, '.');
        assert host == Join(pre, '.') + "." + domain;
        assert host[|Join(pre, '.')|..] == "." + domain;
      }
    }
  }

  // -----------------------------------------------------------------------------------------
  // The whitelist
  // -----------------------------------------------------------------------------------------

  /** A domain is listed as a built-in one or as a comma-separated extra that contains a dot. */
  ghost predicate Listed(defaults: seq<string>, extra: Option<string>, d: string) {
    || (exists i :: 0 <= i < |defaults| && d == Lower(defaults[i]))
    || (extra.Some? && '.' in d
        && exists i :: 0 <= i < |Split(extra.value, ',')| && d == Lower(Trim(Split(extra.value, ',')[i])))
  }

  /** Hosts that differ only in ASCII case lie below the same domains. */
  lemma {:induction false} CaseDoesNotMatter(host: string, other: string, d: string)
    requires SameUpToCase(host, other)
    ensures IsSuffix(Labels(d), Labels(Lower(host))) <==> IsSuffix(Labels(d), Labels(Lower(other)))
  {
    LowerExactly(host, other);
  }

  class Whitelist {
    const domains: seq<string>
    ghost const defaults: seq<string>
    ghost const extra: Option<string>
    const parseIp: string -> Option<nat>
    const inCidrs: nat -> bool

    ghost predicate Valid() {
      forall d :: d in domains <==> Listed(defaults, extra, d)
    }

    constructor (defaults: seq<string>, extra: Option<string>, parseIp: string -> Option<nat>, inCidrs: nat -> bool)
      ensures Valid() && this.defaults == defaults && this.extra == extra
      ensures this.parseIp == parseIp && this.inCidrs == inCidrs
    {
      this.defaults, this.extra := defaults, extra;
      this.parseIp, this.inCidrs := parseIp, inCidrs;
      var all: seq<string> := seq(|defaults|, i requires 0 <= i < |defaults| => Lower(defaults[i]));
      ghost var base := all;
      assert forall d :: d in base <==> exists i :: 0 <= i < |defaults| && d == Lower(defaults[i]) by {
        assert forall i :: 0 <= i < |defaults| ==> base[i] == Lower(defaults[i]);
      }
      if extra.Some? {
        var parts := Split(extra.value, ',');
        var i := 0;
        while i < |parts|
          invariant 0 <= i <= |parts|
          invariant forall d :: d in all <==>
                      d in base || ('.' in d && exists j :: 0 <= j < i && d == Lower(Trim(parts[j])))
        {
          var e := Lower(Trim(parts[i]));
          if e != "" && '.' in e && e !in all {
            all := all + [e];
          }
          i := i + 1;
        }
      }
      domains := all;
    }

    /** Whether a host bypasses the tunnel. */
    method Matches(host: string) returns (r: bool)
      requires Valid()
      ensures r == match parseIp(host)
                   case Some(ip) => inCidrs(ip)
                   case None => exists d :: Listed(defaults, extra, d) && IsSuffix(Labels(d), Labels(Lower(host)))
    {
      match parseIp(host) {
        case Some(ip) => return inCidrs(ip);
        case None =>
      }
      var lower := Lower(host);
      var i := 0;
      while i < |domains|
        invariant 0 <= i <= |domains|
        invariant forall j :: 0 <= j < i ==> !IsSuffix(Labels(domains[j]), Labels(lower))
      {
        SuffixIsLabelSuffix(lower, domains[i]);
        if lower == domains[i] || EndsWith(lower, "." + domains[i]) {
          return true;
        }
        i := i + 1;
      }
      return false;
    }
  }
}
