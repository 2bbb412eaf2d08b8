/**
  The origin secret configuration: its validation, its compilation into maps by exact host, by
  domain and a default, and why looking a host up in the maps is a search of the list.
 */
module OriginSecrets {
  import opened Base
  import opened Cluster
  import opened Translation
  import Text

  datatype Group = Group(hosts: seq<string>, secret: Name)

  // ---------------------------------------------------------------- validation

  predicate LowerAlnum(c: char) {
    'a' <= c <= 'z' || '0' <= c <= '9'
  }

  /** One label of a host name in the sense of section 2.1 of RFC 1123, in lower case. */
  predicate Label(s: string) {
    && s != ""
    && LowerAlnum(s[0]) && LowerAlnum(s[|s| - 1])
    && forall c <- s :: LowerAlnum(c) || c == '-'
  }

  predicate Labels(s: string) {
    forall p <- Text.Split(s, '.') :: Label(p)
  }

  lemma EmptyHasNoLabels()
    ensures !Labels("")
  {
    assert "" in Text.Split("", '.');
  }

  predicate Subdomain(s: string) {
    |s| <= 253 && Labels(s)
  }

  predicate Wildcard(s: string) {
    |s| >= 2 && s[..2] == "*." && Labels(s[2..])
  }

  predicate HostOk(h: string) {
    h == "*" || (if '*' in h then Wildcard(h) else Subdomain(h))
  }

  predicate QualifiedName(s: string) {
    && 0 < |s| <= 63
    && Alnum(s[0]) && Alnum(s[|s| - 1])
    && forall c <- s :: Alnum(c) || c == '-' || c == '_' || c == '.'
  }

  predicate Alnum(c: char) {
    LowerAlnum(c) || 'A' <= c <= 'Z'
  }

  predicate SecretOk(n: Name) {
    QualifiedName(n.name) && Subdomain(n.namespace)
  }

  predicate GroupOk(g: Group) {
    g.hosts != [] && (forall h <- g.hosts :: HostOk(h)) && SecretOk(g.secret)
  }

  /** Lower-case letters, digits and hyphens, with no hyphen at either end. */
  predicate HostLabel(l: string) {
    && l != "" && l[0] != '-' && l[|l| - 1] != '-'
    && forall c <- l :: 'a' <= c <= 'z' || '0' <= c <= '9' || c == '-'
  }

  /** Such labels with dots between. */
  ghost predicate HostName(h: string) {
    exists labels: seq<string> :: labels != [] && (forall l <- labels :: HostLabel(l)) && h == Text.Join(labels, '.')
  }

  lemma LabelsExact(s: string)
    ensures Labels(s) <==> HostName(s)
  {
    if Labels(s) {
      Text.JoinSplit(s, '.');
      forall l <- Text.Split(s, '.') ensures HostLabel(l) {
        assert l[0] in l && l[|l| - 1] in l;
      }
    }
    if HostName(s) {
      var labels: seq<string> :| labels != [] && (forall l <- labels :: HostLabel(l)) && s == Text.Join(labels, '.');
      Text.SplitJoin(labels, '.');
      forall l <- labels ensures Label(l) {
        assert l[0] in l && l[|l| - 1] in l;
      }
    }
  }

  lemma {:induction false} NoStarInHostName(labels: seq<string>)
    requires forall l <- labels :: HostLabel(l)
    ensures '*' !in Text.Join(labels, '.')
    decreases |labels|
  {
    if labels != [] {
      assert HostLabel(labels[0]) && '*' !in labels[0];
      NoStarInHostName(labels[1..]);
      assert |labels| > 1 ==> Text.Join(labels, '.') == labels[0] + ['.'] + Text.Join(labels[1..], '.');
    }
  }

  /** A host of the configuration is "*", a host name of bounded length, or "*." and a host name. */
  ghost predicate HostForm(h: string) {
    h == "*" || (HostName(h) && |h| <= 253) || (|h| >= 2 && h[0] == '*' && h[1] == '.' && HostName(h[2..]))
  }

  lemma HostOkExact(h: string)
    ensures HostOk(h) <==> HostForm(h)
  {
    LabelsExact(h);
    if |h| >= 2 {
      LabelsExact(h[2..]);
      assert h[..2] == "*." <==> h[0] == '*' && h[1] == '.';
    }
    if HostName(h) {
      var labels: seq<string> :| labels != [] && (forall l <- labels :: HostLabel(l)) && h == Text.Join(labels, '.');
      NoStarInHostName(labels);
    }
  }

  /** What a secret of the configuration looks like. */
  ghost predicate SecretForm(n: Name) {
    && 0 < |n.name| <= 63
    && (forall c <- n.name :: 'a' <= c <= 'z' || 'A' <= c <= 'Z' || '0' <= c <= '9' || c == '-' || c == '_' || c == '.')
    && n.name[0] !in "-_." && n.name[|n.name| - 1] !in "-_."
    && HostName(n.namespace) && |n.namespace| <= 253
  }

  lemma SecretOkExact(n: Name)
    ensures SecretOk(n) <==> SecretForm(n)
  {
    LabelsExact(n.namespace);
    assert n.name != "" ==> n.name[0] in n.name && n.name[|n.name| - 1] in n.name;
  }

  datatype Fault = NoHosts | EmptyHost(index: nat) | BadHost(index: nat) | BadName | BadNamespace | InGroup(group: nat, fault: Fault)

  method ValidateSecret(n: Name) returns (errs: seq<Fault>)
    ensures errs == [] <==> SecretOk(n)
    ensures errs == [] <==> SecretForm(n)
  {
    SecretOkExact(n);
    errs := [];
    if |n.name| == 0 {
      errs := errs + [BadName];
    } else if '/' in n.name {
      errs := errs + [BadName];
    } else if !QualifiedName(n.name) {
      errs := errs + [BadName];
    }
    if |n.namespace| == 0 {
      EmptyHasNoLabels();
      errs := errs + [BadNamespace];
    } else if !Subdomain(n.namespace) {
      errs := errs + [BadNamespace];
    }
  }

  method ValidateGroup(g: Group) returns (errs: seq<Fault>)
    ensures errs == [] <==> GroupOk(g)
    ensures errs == [] <==> g.hosts != [] && (forall h <- g.hosts :: HostForm(h)) && SecretForm(g.secret)
  {
    forall h { HostOkExact(h); }
    SecretOkExact(g.secret);
    errs := [];
    if |g.hosts| == 0 {
      errs := errs + [NoHosts];
    } else {
      for i := 0 to |g.hosts|
        invariant errs == [] <==> forall k :: 0 <= k < i ==> HostOk(g.hosts[k])
      {
        var host := g.hosts[i];
        EmptyHasNoLabels();
        if |host| == 0 {
          assert host == "" && !HostOk(host);
          errs := errs + [EmptyHost(i)];
        } else if '*' in host {
          if host != "*" && !Wildcard(host) {
            errs := errs + [BadHost(i)];
          }
        } else if !Subdomain(host) {
          errs := errs + [BadHost(i)];
        }
      }
    }
    var more := ValidateSecret(g.secret);
    errs := errs + more;
  }

  method Validate(groups: seq<Group>) returns (errs: seq<Fault>)
    ensures errs == [] <==> forall g <- groups :: GroupOk(g)
  {
    errs := [];
    for i := 0 to |groups|
      invariant errs == [] <==> forall g <- groups[..i] :: GroupOk(g)
    {
      var es := ValidateGroup(groups[i]);
      errs := errs + seq(|es|, j requires 0 <= j < |es| => InGroup(i, es[j]));
      assert forall g :: g in groups[..i + 1] <==> g in groups[..i] || g == groups[i];
    }
    assert groups[..|groups|] == groups;
  }

  // ---------------------------------------------------------------- the direct search

  /** A host of the configuration with the secret of its group. */
  datatype Line = Line(host: string, secret: Name)

  function LinesOf(hosts: seq<string>, secret: Name): seq<Line> {
    seq(|hosts|, i requires 0 <= i < |hosts| => Line(hosts[i], secret))
  }

  /** The lines of the configuration in order. */
  function Lines(groups: seq<Group>): seq<Line> {
    if groups == [] then [] else Lines(groups[..|groups| - 1]) + LinesOf(groups[|groups| - 1].hosts, groups[|groups| - 1].secret)
  }

  predicate Plain(h: string) {
    h != "" && h[0] != '*'
  }

  predicate Starred(h: string) {
    h != "*" && h != "" && h[0] == '*'
  }

  /** The secret of the last line that meets the condition. */
  function Last(ls: seq<Line>, p: Line -> bool): Option<Name> {
    if ls == [] then None
    else if p(ls[|ls| - 1]) then Some(ls[|ls| - 1].secret)
    else Last(ls[..|ls| - 1], p)
  }

  /** The last line for exactly this host. */
  function LastExact(ls: seq<Line>, host: string): Option<Name> {
    Last(ls, IsExact(host))
  }

  /** The last wildcard line for the domain. */
  function LastWild(ls: seq<Line>, domain: string): Option<Name> {
    Last(ls, IsWild(domain))
  }

  /** The last line for all hosts. */
  function LastStar(ls: seq<Line>): Option<Name> {
    Last(ls, IsStar())
  }

  function IsExact(host: string): Line -> bool {
    (l: Line) => Plain(l.host) && l.host == host
  }

  function IsWild(domain: string): Line -> bool {
    (l: Line) => Starred(l.host) && l.host[2..] == domain
  }

  function IsStar(): Line -> bool {
    (l: Line) => l.host == "*"
  }

  function OrElse<T>(a: Option<T>, b: Option<T>): Option<T> {
    if a.Some? then a else b
  }

  /** Exact host, else wildcard for what follows the first label, else "*", else the earlier default. */
  function Search(ls: seq<Line>, earlier: Option<Name>, host: string): Option<Name> {
    var d := ParseDomain(host);
    OrElse(LastExact(ls, host),
           OrElse(if d.Some? then LastWild(ls, d.value) else None,
                  OrElse(LastStar(ls), earlier)))
  }

  // ---------------------------------------------------------------- compilation

  datatype Compiled = Compiled(mild: map<string, Name>, wild: map<string, Name>, star: Option<Name>)

  /** The maps hold what a search of the lines finds. */
  ghost predicate Represents(m: Compiled, ls: seq<Line>) {
    && (forall h :: Get(m.mild, h) == LastExact(ls, h))
    && (forall d :: Get(m.wild, d) == LastWild(ls, d))
    && m.star == LastStar(ls)
  }

  /** Storing one more line, if its host is not empty. */
  function Put(m: Compiled, l: Line): Compiled
    requires l.host != ""
  {
    if l.host == "*" then m.(star := Some(l.secret))
    else if l.host[0] == '*' then m.(wild := m.wild[l.host[2..] := l.secret])
    else m.(mild := m.mild[l.host := l.secret])
  }

  lemma PutRepresents(m: Compiled, ls: seq<Line>, l: Line)
    requires Represents(m, ls) && l.host != ""
    ensures Represents(Put(m, l), ls + [l])
  {
    assert (ls + [l])[..|ls|] == ls;
    var m' := Put(m, l);
    forall h ensures Get(m'.mild, h) == LastExact(ls + [l], h) { assert Get(m.mild, h) == LastExact(ls, h); }
    forall d ensures Get(m'.wild, d) == LastWild(ls + [l], d) { assert Get(m.wild, d) == LastWild(ls, d); }
  }

  lemma LinesOneMore(hosts: seq<string>, secret: Name, j: nat)
    requires j < |hosts|
    ensures LinesOf(hosts[..j + 1], secret) == LinesOf(hosts[..j], secret) + [Line(hosts[j], secret)]
  {
  }

  /**
    The nested loops of `SecretGroups`.  Indexing into an empty host would crash the program: the
    result is None then, and only then.
   */
  method Compile(groups: seq<Group>) returns (r: Option<Compiled>)
    ensures r.None? <==> exists g <- groups :: "" in g.hosts
    ensures r.Some? ==> Represents(r.value, Lines(groups))
    ensures r.Some? ==> ByGroups(r.value, groups)
  {
    EmptyHosts(groups);
    var m := Compiled(map[], map[], None);
    for i := 0 to |groups|
      invariant Represents(m, Lines(groups[..i]))
      invariant forall l <- Lines(groups[..i]) :: l.host != ""
    {
      var g := groups[i];
      ghost var before := Lines(groups[..i]);
      assert before + LinesOf(g.hosts[..0], g.secret) == before;
      for j := 0 to |g.hosts|
        invariant Represents(m, before + LinesOf(g.hosts[..j], g.secret))
        invariant forall l <- before + LinesOf(g.hosts[..j], g.secret) :: l.host != ""
      {
        LinesOneMore(g.hosts, g.secret, j);
        ghost var now := before + LinesOf(g.hosts[..j], g.secret);
        assert before + LinesOf(g.hosts[..j + 1], g.secret) == now + [Line(g.hosts[j], g.secret)];
        var h := g.hosts[j];
        if h == "" {
          LineIsListed(groups, i, j);
          return None;
        }
        PutRepresents(m, now, Line(h, g.secret));
        if h == "*" {
          m := m.(star := Some(g.secret));
        } else if h[0] == '*' {
          m := m.(wild := m.wild[h[2..] := g.secret]);
        } else {
          m := m.(mild := m.mild[h := g.secret]);
        }
      }
      assert g.hosts[..|g.hosts|] == g.hosts;
      assert groups[..i + 1][..i] == groups[..i];
    }
    assert groups[..|groups|] == groups;
    RepresentsGroups(m, groups);
    return Some(m);
  }

  lemma {:induction false} LineIsListed(groups: seq<Group>, i: nat, j: nat)
    requires i < |groups| && j < |groups[i].hosts|
    ensures Line(groups[i].hosts[j], groups[i].secret) in Lines(groups)
  {
    var n := |groups| - 1;
    if i == n {
      assert LinesOf(groups[n].hosts, groups[n].secret)[j] in Lines(groups);
    } else {
      LineIsListed(groups[..n], i, j);
    }
  }

  /** A validated configuration compiles: no host of it is empty. */
  lemma {:induction false} ValidatedCompiles(groups: seq<Group>, l: Line)
    requires (forall g <- groups :: GroupOk(g)) && l in Lines(groups)
    ensures HostOk(l.host) && l.host != ""
    ensures l.host[0] == '*' && l.host != "*" ==> |l.host| > 2 && l.host[1] == '.'
  {
    var n := |groups| - 1;
    if l in Lines(groups[..n]) {
      ValidatedCompiles(groups[..n], l);
    } else {
      assert l in LinesOf(groups[n].hosts, groups[n].secret);
      assert groups[n] in groups && l.host in groups[n].hosts;
      EmptyHasNoLabels();
      assert l.host[0] == '*' ==> '*' in l.host;
    }
  }

  /** A valid wildcard line matches exactly the hosts with one more leading label than its domain. */
  lemma WildcardTakesOneLabel(h: string, host: string)
    requires HostOk(h) && Starred(h)
    ensures ParseDomain(host) == Some(h[2..]) <==>
            exists first: string :: first != "" && '.' !in first && host == first + h[1..]
  {
    EmptyHasNoLabels();
    assert '*' in h && h[1] == '.' && h[2..] != "";
    assert h[1..] == "." + h[2..];
    var i := Text.IndexOf(host, '.');
    if ParseDomain(host) == Some(h[2..]) {
      var first := host[..i];
      assert host == first + h[1..];
    }
    if exists first: string :: first != "" && '.' !in first && host == first + h[1..] {
      var first: string :| first != "" && '.' !in first && host == first + h[1..];
      assert host[|first|] == '.';
      assert forall k :: 0 <= k < |first| ==> host[k] == first[k];
      assert i == |first|;
      assert host[i + 1..] == h[2..];
    }
  }

  // ---------------------------------------------------------------- in terms of the groups

  /** The group lists exactly this host, which is no wildcard. */
  predicate HasExact(g: Group, host: string) {
    host in g.hosts && host != "" && host[0] != '*'
  }

  /** The group lists "*." and the domain; the second character is not looked at. */
  predicate HasWild(g: Group, domain: string) {
    exists h <- g.hosts :: |h| >= 2 && h[0] == '*' && h[2..] == domain
  }

  predicate HasStar(g: Group) {
    "*" in g.hosts
  }

  /** r is the secret of the last group that lists the host, if one does. */
  ghost predicate FromLastExact(groups: seq<Group>, host: string, r: Option<Name>) {
    if exists i :: 0 <= i < |groups| && HasExact(groups[i], host) then
      exists i :: 0 <= i < |groups| && HasExact(groups[i], host) && r == Some(groups[i].secret)
                  && forall k :: i < k < |groups| ==> !HasExact(groups[k], host)
    else r == None
  }

  /** r is the secret of the last group with a wildcard for the domain, if one has it. */
  ghost predicate FromLastWild(groups: seq<Group>, domain: string, r: Option<Name>) {
    if exists i :: 0 <= i < |groups| && HasWild(groups[i], domain) then
      exists i :: 0 <= i < |groups| && HasWild(groups[i], domain) && r == Some(groups[i].secret)
                  && forall k :: i < k < |groups| ==> !HasWild(groups[k], domain)
    else r == None
  }

  /** r is the secret of the last group that lists "*", if one does. */
  ghost predicate FromLastStar(groups: seq<Group>, r: Option<Name>) {
    if exists i :: 0 <= i < |groups| && HasStar(groups[i]) then
      exists i :: 0 <= i < |groups| && HasStar(groups[i]) && r == Some(groups[i].secret)
                  && forall k :: i < k < |groups| ==> !HasStar(groups[k])
    else r == None
  }

  ghost predicate Meets(g: Group, p: Line -> bool) {
    exists h :: h in g.hosts && p(Line(h, g.secret))
  }

  lemma {:induction false} LastBoth(a: seq<Line>, b: seq<Line>, p: Line -> bool)
    ensures Last(a + b, p) == OrElse(Last(b, p), Last(a, p))
    decreases |b|
  {
    if b == [] {
      assert a + b == a;
    } else {
      assert (a + b)[..|a + b| - 1] == a + b[..|b| - 1];
      LastBoth(a, b[..|b| - 1], p);
    }
  }

  lemma {:induction false} LastOfGroup(hosts: seq<string>, secret: Name, p: Line -> bool)
    ensures Last(LinesOf(hosts, secret), p) == if exists h :: h in hosts && p(Line(h, secret)) then Some(secret) else None
  {
    if hosts != [] {
      var n := |hosts| - 1;
      LastOfGroup(hosts[..n], secret, p);
      assert LinesOf(hosts, secret)[..n] == LinesOf(hosts[..n], secret);
      assert forall h :: h in hosts <==> h in hosts[..n] || h == hosts[n];
    }
  }

  /** r is the secret of the last group that has a line meeting the condition, if one has. */
  ghost predicate FromLastGroup(groups: seq<Group>, p: Line -> bool, r: Option<Name>) {
    && (r.None? ==> forall i :: 0 <= i < |groups| ==> !Meets(groups[i], p))
    && (r.Some? ==> exists i :: 0 <= i < |groups| && Meets(groups[i], p) && r == Some(groups[i].secret)
                                && forall k :: i < k < |groups| ==> !Meets(groups[k], p))
  }

  lemma OneMoreGroup(groups: seq<Group>, g: Group, p: Line -> bool, r: Option<Name>)
    requires FromLastGroup(groups, p, r)
    ensures FromLastGroup(groups + [g], p, if Meets(g, p) then Some(g.secret) else r)
  {
    var more := groups + [g];
    assert more[|groups|] == g;
    if !Meets(g, p) && r.Some? {
      var i :| 0 <= i < |groups| && Meets(groups[i], p) && r == Some(groups[i].secret)
               && forall k :: i < k < |groups| ==> !Meets(groups[k], p);
      assert more[i] == groups[i] && forall k :: i < k < |groups| ==> more[k] == groups[k];
    }
  }

  /** The last line that meets a condition is in the last group that has such a line. */
  lemma {:induction false} LastOfGroups(groups: seq<Group>, p: Line -> bool)
    ensures FromLastGroup(groups, p, Last(Lines(groups), p))
  {
    if groups != [] {
      var before, g := groups[..|groups| - 1], groups[|groups| - 1];
      LastOfGroups(before, p);
      LastBoth(Lines(before), LinesOf(g.hosts, g.secret), p);
      LastOfGroup(g.hosts, g.secret, p);
      OneMoreGroup(before, g, p, Last(Lines(before), p));
      assert before + [g] == groups;
    }
  }

  lemma ExactGroups(groups: seq<Group>, host: string)
    ensures FromLastExact(groups, host, LastExact(Lines(groups), host))
  {
    forall g: Group ensures Meets(g, IsExact(host)) <==> HasExact(g, host) {
      assert HasExact(g, host) ==> IsExact(host)(Line(host, g.secret));
    }
    LastOfGroups(groups, IsExact(host));
  }

  lemma WildGroups(groups: seq<Group>, domain: string)
    ensures FromLastWild(groups, domain, LastWild(Lines(groups), domain))
  {
    forall g: Group ensures Meets(g, IsWild(domain)) <==> HasWild(g, domain) {
      if h :| h in g.hosts && |h| >= 2 && h[0] == '*' && h[2..] == domain {
        assert IsWild(domain)(Line(h, g.secret));
      }
    }
    LastOfGroups(groups, IsWild(domain));
  }

  lemma StarGroups(groups: seq<Group>)
    ensures FromLastStar(groups, LastStar(Lines(groups)))
  {
    forall g: Group ensures Meets(g, IsStar()) <==> HasStar(g) {
      assert HasStar(g) ==> IsStar()(Line("*", g.secret));
    }
    LastOfGroups(groups, IsStar());
  }

  lemma {:induction false} LineIsOfGroup(groups: seq<Group>, l: Line)
    requires l in Lines(groups)
    ensures exists g <- groups :: l.host in g.hosts
  {
    var n := |groups| - 1;
    if l in Lines(groups[..n]) {
      LineIsOfGroup(groups[..n], l);
    } else {
      assert l in LinesOf(groups[n].hosts, groups[n].secret);
      assert groups[n] in groups && l.host in groups[n].hosts;
    }
  }

  lemma EmptyHosts(groups: seq<Group>)
    ensures (exists l <- Lines(groups) :: l.host == "") <==> exists g <- groups :: "" in g.hosts
  {
    if l :| l in Lines(groups) && l.host == "" {
      LineIsOfGroup(groups, l);
    }
    if g :| g in groups && "" in g.hosts {
      var i :| 0 <= i < |groups| && groups[i] == g;
      var j :| 0 <= j < |g.hosts| && g.hosts[j] == "";
      LineIsListed(groups, i, j);
    }
  }

  /** Every host, every domain and "*" is mapped to the secret of the last group that has it. */
  ghost predicate ByGroups(m: Compiled, groups: seq<Group>) {
    && (forall h :: FromLastExact(groups, h, Get(m.mild, h)))
    && (forall d :: FromLastWild(groups, d, Get(m.wild, d)))
    && FromLastStar(groups, m.star)
  }

  lemma RepresentsGroups(m: Compiled, groups: seq<Group>)
    requires Represents(m, Lines(groups))
    ensures ByGroups(m, groups)
  {
    forall h ensures FromLastExact(groups, h, Get(m.mild, h)) {
      ExactGroups(groups, h);
      assert Get(m.mild, h) == LastExact(Lines(groups), h);
    }
    forall d ensures FromLastWild(groups, d, Get(m.wild, d)) {
      WildGroups(groups, d);
      assert Get(m.wild, d) == LastWild(Lines(groups), d);
    }
    StarGroups(groups);
  }

  /** The host is the wildcard with a label for the star. */
  ghost predicate Fits(h: string, host: string) {
    h != "" && exists first: string :: first != "" && '.' !in first && host == first + h[1..]
  }

  /** The group lists a wildcard that the host fits. */
  ghost predicate Covers(g: Group, host: string) {
    exists h <- g.hosts :: h != "*" && '*' in h && Fits(h, host)
  }

  lemma WildcardFits(h: string, host: string)
    requires HostOk(h) && h != "*" && '*' in h
    ensures |h| > 2 && h[0] == '*' && (Fits(h, host) <==> Under(host, h[2..]))
  {
    EmptyHasNoLabels();
    assert h[1..] == "." + h[2..];
    if Fits(h, host) {
      var first: string :| first != "" && '.' !in first && host == first + h[1..];
      assert host == first + "." + h[2..];
    }
    if Under(host, h[2..]) {
      var first: string :| first != "" && '.' !in first && host == first + "." + h[2..];
      assert host == first + h[1..];
    }
  }

  lemma CoversExact(g: Group, host: string)
    requires GroupOk(g)
    ensures Covers(g, host) <==> exists d :: Under(host, d) && HasWild(g, d)
  {
    if h :| h in g.hosts && h != "*" && '*' in h && Fits(h, host) {
      WildcardFits(h, host);
      assert Under(host, h[2..]) && HasWild(g, h[2..]);
    }
    if d :| Under(host, d) && HasWild(g, d) {
      var h :| h in g.hosts && |h| >= 2 && h[0] == '*' && h[2..] == d;
      assert HostOk(h) && '*' in h;
      WildcardFits(h, host);
    }
  }

  /**
    What a host resolves to: the secret of the last group that lists it; else that of the last group
    with a wildcard that covers it; else the explicit default; else that of the last group with "*".
   */
  ghost predicate ResolvesTo(groups: seq<Group>, explicit: Option<Name>, host: string, r: Option<Name>) {
    if exists i :: 0 <= i < |groups| && HasExact(groups[i], host) then
      exists i :: 0 <= i < |groups| && HasExact(groups[i], host) && r == Some(groups[i].secret)
                  && forall k :: i < k < |groups| ==> !HasExact(groups[k], host)
    else if exists i :: 0 <= i < |groups| && Covers(groups[i], host) then
      exists i :: 0 <= i < |groups| && Covers(groups[i], host) && r == Some(groups[i].secret)
                  && forall k :: i < k < |groups| ==> !Covers(groups[k], host)
    else if explicit.Some? then r == explicit
    else FromLastStar(groups, r)
  }

  /** The same as a search of the lines. */
  function Answer(groups: seq<Group>, explicit: Option<Name>, host: string): Option<Name> {
    var ls, d := Lines(groups), ParseDomain(host);
    OrElse(LastExact(ls, host),
           OrElse(if d.Some? then LastWild(ls, d.value) else None, OrElse(explicit, LastStar(ls))))
  }

  /** With the maps compiled and the explicit default applied, a look-up gives this answer. */
  lemma Answers(cfg: Config, groups: seq<Group>, explicit: Option<Name>, ns: string, host: string)
    requires Represents(Compiled(cfg.origins, cfg.domains, LastStar(Lines(groups))), Lines(groups))
    requires cfg.fallback == OrElse(explicit, LastStar(Lines(groups)))
    ensures Resolve(cfg, map[], ns, host) == Answer(groups, explicit, host)
    ensures (forall g <- groups :: GroupOk(g)) ==> ResolvesTo(groups, explicit, host, Resolve(cfg, map[], ns, host))
  {
    var m := Compiled(cfg.origins, cfg.domains, LastStar(Lines(groups)));
    assert Get(m.mild, host) == LastExact(Lines(groups), host);
    var d := ParseDomain(host);
    if d.Some? {
      assert Get(m.wild, d.value) == LastWild(Lines(groups), d.value);
    }
    if forall g <- groups :: GroupOk(g) {
      SearchedIsResolved(groups, explicit, host);
    }
  }

  /** For a validated configuration the search of the lines is the search of the groups. */
  lemma SearchedIsResolved(groups: seq<Group>, explicit: Option<Name>, host: string)
    requires forall g <- groups :: GroupOk(g)
    ensures ResolvesTo(groups, explicit, host, Answer(groups, explicit, host))
  {
    ExactGroups(groups, host);
    StarGroups(groups);
    forall d { ParseDomainExact(host, d); }
    forall i | 0 <= i < |groups| ensures Covers(groups[i], host) <==> exists d :: Under(host, d) && HasWild(groups[i], d) {
      CoversExact(groups[i], host);
    }
    var d := ParseDomain(host);
    if d.Some? {
      WildGroups(groups, d.value);
      assert forall i :: 0 <= i < |groups| ==> (Covers(groups[i], host) <==> HasWild(groups[i], d.value));
    }
  }

  /**
    Looking a host up in the compiled maps is the search of the list, with the earlier default last;
    and for a validated configuration it is the search of the groups, with the earlier default where
    no group has anything for the host.
   */
  lemma CompiledIsSearched(cfg: Config, m: Compiled, groups: seq<Group>, earlier: Option<Name>, ns: string, host: string)
    requires Represents(m, Lines(groups))
    requires cfg.origins == m.mild && cfg.domains == m.wild && cfg.fallback == OrElse(m.star, earlier)
    ensures Resolve(cfg, map[], ns, host) == Search(Lines(groups), earlier, host)
    ensures (forall g <- groups :: GroupOk(g)) ==>
              if ResolvesTo(groups, None, host, None) then Resolve(cfg, map[], ns, host) == earlier
              else ResolvesTo(groups, None, host, Resolve(cfg, map[], ns, host))
  {
    assert Get(m.mild, host) == LastExact(Lines(groups), host);
    var d := ParseDomain(host);
    if d.Some? {
      assert Get(m.wild, d.value) == LastWild(Lines(groups), d.value);
    }
    if forall g <- groups :: GroupOk(g) {
      SearchedIsResolved(groups, None, host);
      var r := Answer(groups, None, host);
      assert r.Some? ==> !ResolvesTo(groups, None, host, None);
    }
  }

  // ---------------------------------------------------------------- the options

  /** The option fields that decide about secrets. */
  class Options {
    var origins: map<string, Name>
    var domains: map<string, Name>
    var secret: Option<Name>

    constructor ()
      ensures origins == map[] && domains == map[] && secret == None
    {
      origins, domains, secret := map[], map[], None;
    }

    /** An explicit default, if both of its parts are given. */
    method Secret(name: string, namespace: string)
      modifies this`secret
      ensures secret == if name != "" && namespace != "" then Some(Name(namespace, name)) else old(secret)
    {
      if |name| > 0 && |namespace| > 0 {
        secret := Some(Name(namespace, name));
      }
    }

    /** The maps replace what was there; the default is replaced only if some line is for "*". */
    method SecretGroups(groups: seq<Group>) returns (ok: bool)
      modifies this
      ensures ok <==> forall g <- groups :: "" !in g.hosts
      ensures ok ==> Represents(Compiled(origins, domains, LastStar(Lines(groups))), Lines(groups))
      ensures ok ==> secret == OrElse(LastStar(Lines(groups)), old(secret))
      ensures ok ==> forall h :: FromLastExact(groups, h, Get(origins, h))
      ensures ok ==> forall d :: FromLastWild(groups, d, Get(domains, d))
      ensures ok ==> (exists g <- groups :: "*" in g.hosts) ==> FromLastStar(groups, secret)
      ensures ok ==> (forall g <- groups :: "*" !in g.hosts) ==> secret == old(secret)
    {
      var r := Compile(groups);
      if r.None? {
        return false;
      }
      origins, domains := r.value.mild, r.value.wild;
      if r.value.star.Some? {
        secret := r.value.star;
      }
      return true;
    }

    /**
      The options as the program applies them: the groups first, then the explicit default, which
      therefore wins over a "*" line.  Every host then resolves as a search of the list would have it.
     */
    method Collect(groups: seq<Group>, name: string, namespace: string) returns (ok: bool)
      requires origins == map[] && domains == map[] && secret == None
      modifies this
      ensures ok <==> forall g <- groups :: "" !in g.hosts
      ensures ok && (forall g <- groups :: GroupOk(g)) ==>
                var explicit := if name != "" && namespace != "" then Some(Name(namespace, name)) else None;
                forall cfg: Config, ns, host ::
                  cfg.origins == origins && cfg.domains == domains && cfg.fallback == secret ==>
                  ResolvesTo(groups, explicit, host, Resolve(cfg, map[], ns, host))
      ensures ok ==>
                var explicit := if name != "" && namespace != "" then Some(Name(namespace, name)) else None;
                forall cfg: Config, ns, host ::
                  cfg.origins == origins && cfg.domains == domains && cfg.fallback == secret ==>
                  Resolve(cfg, map[], ns, host) == Answer(groups, explicit, host)
    {
      ok := SecretGroups(groups);
      if ok {
        Secret(name, namespace);
        ghost var explicit := if name != "" && namespace != "" then Some(Name(namespace, name)) else None;
        forall cfg: Config, ns, host | cfg.origins == origins && cfg.domains == domains && cfg.fallback == secret {
          Answers(cfg, groups, explicit, ns, host);
        }
      }
    }
  }
}
