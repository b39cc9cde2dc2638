/**
 Normalization of the scopes of an API token: unknown names are refused, duplicates dropped, and each write scope
 brings its read scope in front of it.
 */
module Scopes {
  import opened Options
  import opened Sequences
  import opened Text

  /** A scope that needs another one: the pair of `ensure_before`. */
  datatype Need<T> = Need(write: T, read: T)

  /** What is allowed, what needs what, and what an empty request means. */
  datatype Policy<T(==)> = Policy(allowed: set<T>, needs: seq<Need<T>>, default: T)

  const ALLOWED_SCOPES: set<string> := CONTENT_SCOPES + PERSONAL_SCOPES

  const CONTENT_SCOPES: set<string> := {"chat", "todos:read", "todos:write", "documents:read", "documents:write",
    "email:read", "email:draft", "email:send", "calendar:read", "calendar:write"}

  const PERSONAL_SCOPES: set<string> := {"contacts:read", "contacts:write", "contacts:configure", "memory:read",
    "memory:write", "life:read", "life:write", "profile:read", "profile:write", "cookbook:read", "cookbook:launch"}

  const POLICY: Policy<string> := Policy(
    ALLOWED_SCOPES,
    [Need("todos:write", "todos:read"), Need("documents:write", "documents:read"),
     Need("calendar:write", "calendar:read"), Need("contacts:write", "contacts:read"),
     Need("memory:write", "memory:read"), Need("life:write", "life:read"), Need("profile:write", "profile:read"),
     Need("email:draft", "email:read"), Need("cookbook:launch", "cookbook:read")],
    "chat")

  // ---------------------------------------------------------------- the steps, as functions

  /** The first occurrences, in order. */
  function Dedupe<T(==)>(l: seq<T>): seq<T> {
    if l == [] then []
    else
      var rest, last := Dedupe(l[..|l| - 1]), l[|l| - 1];
      if last in rest then rest else rest + [last]
  }

  function IndexOf<T(==)>(l: seq<T>, x: T): (i: nat)
    requires x in l
    ensures i < |l| && l[i] == x && x !in l[..i]
  {
    if l[0] == x then 0 else 1 + IndexOf(l[1..], x)
  }

  function EnsureBefore<T(==)>(l: seq<T>, n: Need<T>): seq<T> {
    if n.write !in l || n.read in l then l
    else l[..IndexOf(l, n.write)] + [n.read] + l[IndexOf(l, n.write)..]
  }

  function EnsureAll<T(==)>(l: seq<T>, needs: seq<Need<T>>): seq<T> {
    if needs == [] then l else EnsureBefore(EnsureAll(l, needs[..|needs| - 1]), needs[|needs| - 1])
  }

  function Normalized<T(==)>(p: Policy<T>, requested: seq<T>): seq<T> {
    if requested == [] then [p.default] else EnsureAll(Dedupe(requested), p.needs)
  }

  predicate AllAllowed<T(==)>(p: Policy<T>, requested: seq<T>) {
    forall s :: s in requested ==> s in p.allowed
  }

  /** The list is built by appending and inserting in place; the first unknown scope ends it. */
  method NormalizeScopes<T(==, !new)>(p: Policy<T>, requested: seq<T>) returns (r: Result<seq<T>, T>)
    ensures r.Ok? <==> AllAllowed(p, requested)
    ensures r.Ok? ==> r.value == Normalized(p, requested)
    ensures r.Err? ==> r.error in requested && r.error !in p.allowed
  {
    var normalized: seq<T> := [];
    for i := 0 to |requested|
      invariant normalized == Dedupe(requested[..i]) && AllAllowed(p, requested[..i])
    {
      var scope := requested[i];
      assert requested[..i + 1][..i] == requested[..i];
      if scope !in p.allowed { return Err(scope); }
      if scope !in normalized { normalized := normalized + [scope]; }
    }
    assert requested[..|requested|] == requested;
    for i := 0 to |p.needs|
      invariant normalized == EnsureAll(Dedupe(requested), p.needs[..i])
    {
      var n := p.needs[i];
      assert p.needs[..i + 1][..i] == p.needs[..i];
      if n.write in normalized && n.read !in normalized {
        var idx := IndexOf(normalized, n.write);
        normalized := normalized[..idx] + [n.read] + normalized[idx..];
      }
    }
    assert p.needs[..|p.needs|] == p.needs;
    EmptyOnlyFromEmpty(requested, p.needs);
    return Ok(if normalized == [] then [p.default] else normalized);
  }

  lemma {:induction false} EmptyOnlyFromEmpty<T(!new)>(requested: seq<T>, needs: seq<Need<T>>)
    ensures EnsureAll(Dedupe(requested), needs) == [] <==> requested == []
  {
    if needs != [] {
      EmptyOnlyFromEmpty(requested, needs[..|needs| - 1]);
    } else if requested != [] {
      EmptyOnlyFromEmpty(requested[..|requested| - 1], []);
    }
  }

  // ---------------------------------------------------------------- what the result is

  predicate Closed<T(==)>(needs: seq<Need<T>>, s: set<T>) {
    forall n :: n in needs && n.write in s ==> n.read in s
  }

  /** What remains of a list when only the members of `s` are kept. */
  function Keep<T(==)>(l: seq<T>, s: set<T>): seq<T> {
    if l == [] then []
    else Keep(l[..|l| - 1], s) + if l[|l| - 1] in s then [l[|l| - 1]] else []
  }

  /** Reads need nothing themselves, and needed reads and the default are allowed. */
  predicate Sound<T(==)>(p: Policy<T>) {
    && (forall m, n :: m in p.needs && n in p.needs ==> m.write != n.read)
    && (forall n :: n in p.needs ==> n.read in p.allowed && n.write != p.default)
    && p.default in p.allowed
  }

  lemma {:induction false} KeepSplits<T(!new)>(a: seq<T>, b: seq<T>, s: set<T>)
    ensures Keep(a + b, s) == Keep(a, s) + Keep(b, s)
  {
    if b == [] {
      assert a + b == a;
    } else {
      KeepSplits(a, b[..|b| - 1], s);
      assert (a + b)[..|a + b| - 1] == a + b[..|b| - 1];
    }
  }

  lemma {:induction false} KeepAll<T(!new)>(l: seq<T>, s: set<T>)
    requires forall x :: x in l ==> x in s
    ensures Keep(l, s) == l
  {
    if l != [] {
      KeepAll(l[..|l| - 1], s);
      assert l == l[..|l| - 1] + [l[|l| - 1]] && l[|l| - 1] in l;
    }
  }

  lemma {:induction false} DedupeIs<T(!new)>(l: seq<T>)
    ensures NoDuplicates(Dedupe(l))
    ensures forall x :: x in Dedupe(l) <==> x in l
  {
    if l != [] {
      DedupeIs(l[..|l| - 1]);
      assert l == l[..|l| - 1] + [l[|l| - 1]];
    }
  }

  lemma InsertNoDuplicates<T(!new)>(a: seq<T>, x: T, b: seq<T>)
    requires NoDuplicates(a + b) && x !in a + b
    ensures NoDuplicates(a + [x] + b)
    ensures forall y :: y in a + [x] + b <==> y in a + b || y == x
  {
    forall i, j | 0 <= i < j < |a + [x] + b| ensures (a + [x] + b)[i] != (a + [x] + b)[j] {
      var i', j' := if i <= |a| then i else i - 1, if j <= |a| then j else j - 1;
      assert i != |a| ==> (a + [x] + b)[i] == (a + b)[i'] && (a + b)[i'] in a + b;
      assert j != |a| ==> (a + [x] + b)[j] == (a + b)[j'] && (a + b)[j'] in a + b;
    }
  }

  /** One insertion adds the read scope exactly when it is needed and missing, and disturbs nothing else. */
  lemma EnsureBeforeIs<T(!new)>(l: seq<T>, n: Need<T>, s: set<T>)
    requires NoDuplicates(l) && forall x :: x in s ==> x in l
    ensures var r := EnsureBefore(l, n);
            && NoDuplicates(r)
            && (forall x :: x in r <==> x in l || (n.write in l && x == n.read))
            && Keep(r, s) == Keep(l, s)
  {
    if n.write in l && n.read !in l {
      var i := IndexOf(l, n.write);
      var a, b := l[..i], l[i..];
      assert l == a + b;
      InsertNoDuplicates(a, n.read, b);
      KeepSplits(a + [n.read], b, s);
      KeepSplits(a, [n.read], s);
      KeepSplits(a, b, s);
      assert Keep([n.read], s) == [];
    }
  }

  lemma {:induction false} EnsureAllIs<T(!new)>(l: seq<T>, needs: seq<Need<T>>, s: set<T>)
    requires NoDuplicates(l) && forall x :: x in s ==> x in l
    requires forall m, n :: m in needs && n in needs ==> m.write != n.read
    ensures var r := EnsureAll(l, needs);
            && NoDuplicates(r) && (forall x :: x in l ==> x in r) && Closed(needs, Elements(r)) && Keep(r, s) == Keep(l, s)
            && (forall x :: x in r ==> x in l || exists n :: n in needs && n.write in l && n.read == x)
  {
    if needs != [] {
      var front, last := needs[..|needs| - 1], needs[|needs| - 1];
      assert needs == front + [last];
      EnsureAllIs(l, front, s);
      EnsureBeforeIs(EnsureAll(l, front), last, s);
    }
  }

  /**
   The result of a request of allowed scopes: a duplicate-free list of allowed scopes, the smallest superset of the
   request in which every write scope has its read scope, holding the requested scopes in first-occurrence order.
   */
  lemma NormalizedIs<T(!new)>(p: Policy<T>, requested: seq<T>)
    requires Sound(p) && AllAllowed(p, requested) && requested != []
    ensures var r := Normalized(p, requested);
            && NoDuplicates(r) && AllAllowed(p, r) && r != []
            && Elements(requested) <= Elements(r) && Closed(p.needs, Elements(r))
            && Keep(r, Elements(requested)) == Dedupe(requested)
    ensures forall t :: Elements(requested) <= t && Closed(p.needs, t) ==> Elements(Normalized(p, requested)) <= t
  {
    var d := Dedupe(requested);
    DedupeIs(requested);
    assert forall x :: x in d ==> x in requested;
    assert forall x :: x in d ==> x in Elements(requested);
    KeepAll(d, Elements(requested));
    EnsureAllIs(d, p.needs, Elements(requested));
    EmptyOnlyFromEmpty(requested, p.needs);
    var r := Normalized(p, requested);
    forall t | Elements(requested) <= t && Closed(p.needs, t) ensures Elements(r) <= t {
      forall x | x in r ensures x in t {
        assert x in d ==> x in Elements(requested);
      }
    }
  }

  predicate StandsBefore<T(==)>(l: seq<T>, a: T, b: T) {
    exists j :: 0 <= j < |l| - 1 && l[j] == a && l[j + 1] == b
  }

  /** No two pairs share a write scope or a read scope. */
  predicate Separate<T(==)>(needs: seq<Need<T>>) {
    forall m, n :: m in needs && n in needs && m != n ==> m.write != n.write && m.read != n.read
  }

  /** An insertion in front of another scope does not come between two neighbours. */
  lemma InsertKeepsNeighbours<T(!new)>(l: seq<T>, m: Need<T>, a: T, b: T)
    requires StandsBefore(l, a, b) && m.write != b
    ensures StandsBefore(EnsureBefore(l, m), a, b)
  {
    var j :| 0 <= j < |l| - 1 && l[j] == a && l[j + 1] == b;
    var r := EnsureBefore(l, m);
    if r != l && IndexOf(l, m.write) <= j {
      assert r[j + 1] == a && r[j + 2] == b;
    } else {
      assert r[j] == a && r[j + 1] == b;
    }
  }

  lemma {:induction false} InsertedStandsBefore<T(!new)>(l: seq<T>, needs: seq<Need<T>>, n: Need<T>)
    requires NoDuplicates(l) && Separate(needs) && n in needs && n.write in l && n.read !in l
    requires forall m, n :: m in needs && n in needs ==> m.write != n.read
    ensures StandsBefore(EnsureAll(l, needs), n.read, n.write)
  {
    var front, last := needs[..|needs| - 1], needs[|needs| - 1];
    assert needs == front + [last];
    var r := EnsureAll(l, front);
    if n in front {
      InsertedStandsBefore(l, front, n);
      if last != n { InsertKeepsNeighbours(r, last, n.read, n.write); }
    } else {
      EnsureAllIs(l, front, {});
      var i := IndexOf(r, n.write);
      assert EnsureBefore(r, n)[i] == n.read && EnsureBefore(r, n)[i + 1] == n.write;
    }
  }

  /** A read scope that was not asked for stands directly in front of the write scope that brought it. */
  lemma ReadStandsBeforeWrite<T(!new)>(p: Policy<T>, requested: seq<T>, n: Need<T>)
    requires Sound(p) && Separate(p.needs) && n in p.needs && n.write in requested && n.read !in requested
    ensures StandsBefore(Normalized(p, requested), n.read, n.write)
  {
    DedupeIs(requested);
    InsertedStandsBefore(Dedupe(requested), p.needs, n);
  }

  lemma {:induction false} DedupeNoDuplicates<T(!new)>(l: seq<T>)
    requires NoDuplicates(l)
    ensures Dedupe(l) == l
  {
    if l != [] {
      DedupeNoDuplicates(l[..|l| - 1]);
      assert l == l[..|l| - 1] + [l[|l| - 1]];
    }
  }

  lemma {:induction false} EnsureAllOfClosed<T(!new)>(l: seq<T>, needs: seq<Need<T>>)
    requires Closed(needs, Elements(l))
    ensures EnsureAll(l, needs) == l
  {
    if needs != [] {
      EnsureAllOfClosed(l, needs[..|needs| - 1]);
      assert needs[|needs| - 1] in needs;
    }
  }

  /** Normalizing again changes nothing, the default for an empty request included. */
  lemma NormalizeIdempotent<T(!new)>(p: Policy<T>, requested: seq<T>)
    requires Sound(p) && AllAllowed(p, requested)
    ensures AllAllowed(p, Normalized(p, requested))
    ensures Normalized(p, Normalized(p, requested)) == Normalized(p, requested)
  {
    var r := Normalized(p, requested);
    if requested != [] { NormalizedIs(p, requested); }
    DedupeNoDuplicates(r);
    EnsureAllOfClosed(r, p.needs);
  }

  // ---------------------------------------------------------------- storage

  /** `[s.strip() for s in parts if s.strip()]` */
  function StripAll(parts: seq<string>): seq<string> {
    if parts == [] then []
    else
      var last := Strip(parts[|parts| - 1]);
      StripAll(parts[..|parts| - 1]) + if last == "" then [] else [last]
  }

  function FromStored(stored: string): seq<string> {
    StripAll(Split(stored, ','))
  }

  /** A name that survives storage: no comma, no space, nothing to strip. */
  predicate Storable(s: string) {
    s != "" && Tight(s) && ',' !in s && ' ' !in s
  }

  lemma {:induction false} StripAllOfStorable(parts: seq<string>)
    requires forall s :: s in parts ==> Storable(s)
    ensures StripAll(parts) == parts
  {
    if parts != [] {
      var front, last := parts[..|parts| - 1], parts[|parts| - 1];
      assert parts == front + [last] && last in parts;
      assert forall s :: s in front ==> s in parts;
      StripAllOfStorable(front);
      StripTight(last);
    }
  }

  /** The comma-joined column reads back as the list that was stored. */
  lemma StoredReadsBack(p: Policy<string>, requested: seq<string>)
    requires Sound(p) && AllAllowed(p, requested) && forall s :: s in p.allowed ==> Storable(s)
    ensures FromStored(Join(Normalized(p, requested), ",")) == Normalized(p, requested)
  {
    var r := Normalized(p, requested);
    if requested != [] { NormalizedIs(p, requested); }
    SplitJoin(r, ',');
    StripAllOfStorable(r);
  }

  // ---------------------------------------------------------------- what a caller may submit

  const TOKEN_PROFILES: map<string, seq<string>> := map[
    "chat" := ["chat"],
    "codex_todos" := ["todos:read", "todos:write"],
    "codex_documents" := ["documents:read", "documents:write"],
    "contacts" := ["contacts:read", "contacts:write", "contacts:configure"],
    "codex_email_drafts" := ["email:read", "email:draft", "documents:read", "documents:write"],
    "life_os" := ["life:read", "life:write"],
    "profile_configuration" := ["profile:read", "profile:write"]
  ]

  datatype Submitted = Unset | Listed(items: seq<string>) | Written(text: string)

  /** `text.replace(" ", ",")` */
  function CommasForSpaces(text: string): (r: string)
    ensures |r| == |text| && forall i :: 0 <= i < |r| ==> r[i] == if text[i] == ' ' then ',' else text[i]
  {
    seq(|text|, i requires 0 <= i < |text| => if text[i] == ' ' then ',' else text[i])
  }

  /** The scopes asked for: a named profile wins over a list, a written list, or the default. */
  function Requested(default: string, profile: string, scopes: Submitted): Result<seq<string>, string> {
    var key := Strip(profile);
    if key != "" then
      if key in TOKEN_PROFILES then Ok(TOKEN_PROFILES[key]) else Err(key)
    else if scopes.Listed? then Ok(StripAll(scopes.items))
    else if scopes.Written? && scopes.text != "" then Ok(StripAll(Split(CommasForSpaces(scopes.text), ',')))
    else Ok([default])
  }

  /** Entries are taken without the space around them, and empty ones not at all. */
  lemma {:induction false} StripAllSays(parts: seq<string>, x: string)
    ensures x in StripAll(parts) <==> x != "" && exists i :: 0 <= i < |parts| && Strip(parts[i]) == x
  {
    if parts != [] {
      var n := |parts| - 1;
      StripAllSays(parts[..n], x);
      assert forall i :: 0 <= i < n ==> parts[..n][i] == parts[i];
      if x in StripAll(parts) && x !in StripAll(parts[..n]) {
        assert Strip(parts[n]) == x;
      }
    }
  }

  /** A named profile decides alone, and an unknown one is refused; without either the default is asked for. */
  lemma ProfileDecides(default: string, profile: string, scopes: Submitted)
    ensures Strip(profile) != "" && Strip(profile) in TOKEN_PROFILES ==>
              Requested(default, profile, scopes) == Ok(TOKEN_PROFILES[Strip(profile)])
    ensures Requested(default, profile, scopes).Err? <==> Strip(profile) != "" && Strip(profile) !in TOKEN_PROFILES
    ensures Strip(profile) == "" && (scopes.Unset? || scopes == Written("")) ==>
              Requested(default, profile, scopes) == Ok([default])
  {
  }

  lemma {:induction false} JoinHasNoSpace(parts: seq<string>)
    requires parts != [] && forall s :: s in parts ==> Storable(s)
    ensures ' ' !in Join(parts, ",") && Join(parts, ",") != ""
  {
    assert parts[0] in parts;
    if |parts| > 1 {
      assert forall s :: s in parts[1..] ==> s in parts;
      JoinHasNoSpace(parts[1..]);
    }
  }

  lemma {:induction false} CommasForJoined(parts: seq<string>)
    requires forall s :: s in parts ==> ' ' !in s
    ensures CommasForSpaces(Join(parts, " ")) == Join(parts, ",")
  {
    if parts != [] {
      assert parts[0] in parts;
      assert forall s :: s in parts[1..] ==> s in parts;
      CommasForJoined(parts[1..]);
      assert CommasForSpaces(parts[0]) == parts[0] by {
        forall i | 0 <= i < |parts[0]| ensures CommasForSpaces(parts[0])[i] == parts[0][i] {
          assert parts[0][i] in parts[0];
        }
      }
      if |parts| > 1 {
        CommasOfParts(parts[0], Join(parts[1..], " "));
      }
    }
  }

  lemma CommasOfParts(a: string, b: string)
    ensures CommasForSpaces(a + " " + b) == CommasForSpaces(a) + "," + CommasForSpaces(b)
  {
  }

  /** A list written with spaces between the names asks for those names. */
  lemma SpacesSeparate(default: string, names: seq<string>)
    requires names != [] && forall s :: s in names ==> Storable(s)
    ensures Requested(default, "", Written(Join(names, " "))) == Ok(names)
  {
    CommasForJoined(names);
    JoinHasNoSpace(names);
    SplitJoin(names, ',');
    StripAllOfStorable(names);
    assert |CommasForSpaces(Join(names, " "))| == |Join(names, " ")|;
    assert Join(names, ",") != "";
  }

  /** Submitting a stored column again, as text or as the list read from it, asks for the same scopes. */
  lemma ResubmittedIsSame(p: Policy<string>, requested: seq<string>)
    requires Sound(p) && AllAllowed(p, requested) && forall s :: s in p.allowed ==> Storable(s)
    ensures var r := Normalized(p, requested);
            && Requested(p.default, "", Written(Join(r, ","))) == Ok(r)
            && Requested(p.default, "", Listed(r)) == Ok(r)
  {
    var r := Normalized(p, requested);
    if requested != [] { NormalizedIs(p, requested); }
    assert forall s :: s in r ==> Storable(s);
    JoinHasNoSpace(r);
    var text := Join(r, ",");
    assert CommasForSpaces(text) == text by {
      forall i | 0 <= i < |text| ensures CommasForSpaces(text)[i] == text[i] {
        assert text[i] in text;
      }
    }
    StoredReadsBack(p, requested);
    StripAllOfStorable(r);
  }

  // ---------------------------------------------------------------- the shipped policy

  /** Read scopes end in a `d`, write scopes do not, and no write scope is as short as the default. */
  predicate Shaped(n: Need<string>) {
    |n.write| > 4 && n.write[|n.write| - 1] != 'd' && n.read != "" && n.read[|n.read| - 1] == 'd'
  }

  lemma NeedsShaped(i: nat)
    requires i < |POLICY.needs|
    ensures Shaped(POLICY.needs[i])
  {
  }

  lemma NeedsAllowed(i: nat)
    requires i < |POLICY.needs|
    ensures POLICY.needs[i].read in POLICY.allowed
  {
  }

  lemma PolicySound()
    ensures Sound(POLICY)
  {
    forall n | n in POLICY.needs ensures Shaped(n) && n.read in POLICY.allowed {
      var i :| 0 <= i < |POLICY.needs| && POLICY.needs[i] == n;
      NeedsShaped(i);
      NeedsAllowed(i);
    }
  }

  /** The first and the third letter tell the pairs apart. */
  predicate Lettered(s: string, first: char, third: char) {
    |s| > 2 && s[0] == first && s[2] == third
  }

  const FIRST_LETTERS := "tdccmlpec"
  const THIRD_LETTERS := "dclnmfoao"

  lemma NeedsLettered(i: nat)
    requires i < |POLICY.needs|
    ensures Lettered(POLICY.needs[i].write, FIRST_LETTERS[i], THIRD_LETTERS[i])
    ensures Lettered(POLICY.needs[i].read, FIRST_LETTERS[i], THIRD_LETTERS[i])
  {
  }

  lemma LettersDiffer(i: nat, j: nat)
    requires i < j < |POLICY.needs|
    ensures FIRST_LETTERS[i] != FIRST_LETTERS[j] || THIRD_LETTERS[i] != THIRD_LETTERS[j]
  {
  }

  lemma NeedsDiffer(i: nat, j: nat)
    requires i < |POLICY.needs| && j < |POLICY.needs| && i != j
    ensures POLICY.needs[i].write != POLICY.needs[j].write && POLICY.needs[i].read != POLICY.needs[j].read
  {
    NeedsLettered(i);
    NeedsLettered(j);
    if i < j { LettersDiffer(i, j); } else { LettersDiffer(j, i); }
  }

  lemma PolicySeparate()
    ensures Separate(POLICY.needs)
  {
    forall m, n | m in POLICY.needs && n in POLICY.needs && m != n ensures m.write != n.write && m.read != n.read {
      var i :| 0 <= i < |POLICY.needs| && POLICY.needs[i] == m;
      var j :| 0 <= j < |POLICY.needs| && POLICY.needs[j] == n;
      NeedsDiffer(i, j);
    }
  }

  const AREAS: seq<string> := ["todos", "documents", "calendar", "contacts", "memory", "life", "profile"]

  lemma ContentWrites(s: string)
    requires s in CONTENT_SCOPES && |s| >= 6 && s[|s| - 1] == 'e'
    ensures s == "todos" + ":write" || s == "documents" + ":write" || s == "calendar" + ":write"
  {
  }

  lemma PersonalWrites(s: string)
    requires s in PERSONAL_SCOPES && |s| >= 6 && s[|s| - 1] == 'e' && s[|s| - 3] == 'i'
    ensures s == "contacts" + ":write" || s == "memory" + ":write" || s == "life" + ":write" || s == "profile" + ":write"
  {
  }

  lemma SameArea(area: string, other: string)
    requires area + ":write" == other + ":write"
    ensures area == other
  {
    assert area == (area + ":write")[..|area|];
  }

  lemma WriteIsNeeded(area: string) returns (i: nat)
    requires area + ":write" in POLICY.allowed
    ensures i < |AREAS| && AREAS[i] == area
  {
    var s := area + ":write";
    assert s[|s| - 1] == 'e' && s[|s| - 3] == 'i';
    if s in CONTENT_SCOPES {
      ContentWrites(s);
      i := if s == "todos" + ":write" then 0 else if s == "documents" + ":write" then 1 else 2;
    } else {
      PersonalWrites(s);
      i := if s == "contacts" + ":write" then 3 else if s == "memory" + ":write" then 4
           else if s == "life" + ":write" then 5 else 6;
    }
    SameArea(area, AREAS[i]);
  }

  lemma Parts(s: string, area: string, end: string)
    requires |s| == |area| + |end| && s[..|area|] == area && s[|area|..] == end
    ensures s == area + end
  {
  }

  lemma WriteOfArea(i: nat)
    requires i < |AREAS|
    ensures POLICY.needs[i].write == AREAS[i] + ":write"
  {
    Parts(POLICY.needs[i].write, AREAS[i], ":write");
  }

  lemma ReadOfArea(i: nat)
    requires i < |AREAS|
    ensures POLICY.needs[i].read == AREAS[i] + ":read"
  {
    Parts(POLICY.needs[i].read, AREAS[i], ":read");
  }

  /** Every allowed scope to write in an area brings the one to read in it. */
  lemma WriteScopesBringReads(area: string) returns (n: Need<string>)
    requires area + ":write" in POLICY.allowed
    ensures n in POLICY.needs && n.write == area + ":write" && n.read == area + ":read"
  {
    var i := WriteIsNeeded(area);
    WriteOfArea(i);
    ReadOfArea(i);
    n := POLICY.needs[i];
  }

  /** The profiles ask only for allowed scopes, so that no profile is refused. */
  lemma ProfilesAllowed(profile: string)
    requires profile in TOKEN_PROFILES
    ensures AllAllowed(POLICY, TOKEN_PROFILES[profile])
  {
  }

  lemma ContentScopeStorable(s: string)
    requires s in CONTENT_SCOPES
    ensures Storable(s)
  {
  }

  lemma PersonalScopeStorable(s: string)
    requires s in PERSONAL_SCOPES
    ensures Storable(s)
  {
  }

  lemma AllowedStorable()
    ensures forall s :: s in POLICY.allowed ==> Storable(s)
  {
    forall s | s in POLICY.allowed ensures Storable(s) {
      if s in CONTENT_SCOPES { ContentScopeStorable(s); } else { PersonalScopeStorable(s); }
    }
  }
}
