/**
  Path validation and normalisation: `is_safe_path`, `normalize_path`, `resolve_path` and
  `validate_path` of src/storage.cc.

  The character loops of the source are methods.  They are proved against `Split`, `Components`
  and `Join`, which describe a path as a sequence of names.
 */
module Paths {
  import opened Basics

  const MAX_PATH: nat := 4096

  /* ---------- Paths as sequences of names ---------- */

  /** How one more character changes the fields read so far. */
  function Snoc(fields: seq<string>, c: char): seq<string>
    requires fields != []
  {
    if c == '/' then fields + [""]
    else fields[..|fields| - 1] + [fields[|fields| - 1] + [c]]
  }

  /** The '/'-separated fields of `s`, empty ones included. */
  function Split(s: string): (fields: seq<string>)
    ensures fields != []
  {
    if s == "" then [""]
    else
      Snoc(Split(s[..|s| - 1]), s[|s| - 1])
  }

  /** The fields that are not empty, in order. */
  function NonEmpty(fields: seq<string>): seq<string>
  {
    if fields == [] then []
    else
      var before, last := NonEmpty(fields[..|fields| - 1]), fields[|fields| - 1];
      if last == "" then before else before + [last]
  }

  function Components(p: string): seq<string>
  {
    NonEmpty(Split(p))
  }

  /** The names joined by single slashes. */
  function Join(names: seq<string>): string
  {
    if names == [] then ""
    else if |names| == 1 then names[0]
    else Join(names[..|names| - 1]) + "/" + names[|names| - 1]
  }

  predicate IsName(c: string)
  {
    c != "" && '/' !in c
  }

  predicate AreNames(cs: seq<string>)
  {
    forall i :: 0 <= i < |cs| ==> IsName(cs[i])
  }

  function Normalize(p: string): string
  {
    Join(Components(p))
  }

  /** A relative path without a ".." field and without a NUL character. */
  predicate Safe(p: string)
  {
    && (p == "" || p[0] != '/')
    && forall i :: 0 <= i < |Split(p)| ==> SafeField(Split(p)[i])
  }

  predicate SafeField(c: string)
  {
    c != ".." && '\0' !in c
  }

  predicate Accepted(p: string)
  {
    |p| <= MAX_PATH && Safe(p)
  }

  /** The string that is handed to the operating system. */
  function Resolve(base: string, p: string): string
  {
    if Normalize(p) == "" then base else base + "/" + Normalize(p)
  }

  /* ---------- Facts about Split, NonEmpty and Join ---------- */

  lemma {:induction false} NonEmptyIdentity(cs: seq<string>)
    requires AreNames(cs)
    ensures NonEmpty(cs) == cs
  {
    if cs != [] {
      NonEmptyIdentity(cs[..|cs| - 1]);
    }
  }

  lemma {:induction false} NonEmptyMembers(fields: seq<string>)
    ensures forall c :: c in NonEmpty(fields) <==> c in fields && c != ""
  {
    if fields != [] {
      var before := fields[..|fields| - 1];
      NonEmptyMembers(before);
      assert fields == before + [fields[|fields| - 1]];
    }
  }

  lemma {:induction false} SplitSlashFree(s: string)
    ensures forall i :: 0 <= i < |Split(s)| ==> '/' !in Split(s)[i]
  {
    if s != "" {
      SplitSlashFree(s[..|s| - 1]);
    }
  }

  lemma SplitSnoc(s: string, c: char)
    ensures Split(s + [c]) == Snoc(Split(s), c)
  {
    assert (s + [c])[..|s|] == s;
  }

  lemma {:induction false} SplitOne(c: string)
    requires '/' !in c
    ensures Split(c) == [c]
  {
    if c != "" {
      var before, last := c[..|c| - 1], c[|c| - 1];
      assert c == before + [last];
      SplitOne(before);
      SplitSnoc(before, last);
    }
  }

  lemma SnocOntoAppend(f: seq<string>, g: seq<string>, c: char)
    requires g != []
    ensures Snoc(f + g, c) == f + Snoc(g, c)
  {
  }

  lemma {:induction false} SplitAppend(a: string, b: string)
    ensures Split(a + "/" + b) == Split(a) + Split(b)
  {
    if b == "" {
      assert a + "/" + b == a + ['/'];
      SplitSnoc(a, '/');
    } else {
      var b', c := b[..|b| - 1], b[|b| - 1];
      SplitAppend(a, b');
      SplitAppendSnoc(a, b', c);
      assert b == b' + [c];
    }
  }

  lemma SplitAppendSnoc(a: string, b: string, c: char)
    requires Split(a + "/" + b) == Split(a) + Split(b)
    ensures Split(a + "/" + (b + [c])) == Split(a) + Split(b + [c])
  {
    assert a + "/" + (b + [c]) == a + "/" + b + [c];
    SplitSnoc(a + "/" + b, c);
    SplitSnoc(b, c);
    SnocOntoAppend(Split(a), Split(b), c);
  }

  lemma {:induction false} SplitJoin(cs: seq<string>)
    requires AreNames(cs)
    ensures cs != [] ==> Split(Join(cs)) == cs
  {
    if cs != [] {
      var before, last := cs[..|cs| - 1], cs[|cs| - 1];
      assert cs == before + [last];
      assert IsName(last);
      SplitJoin(before);
      SplitJoinSnoc(before, last);
    }
  }

  lemma SplitJoinSnoc(before: seq<string>, last: string)
    requires IsName(last) && (before != [] ==> Split(Join(before)) == before)
    ensures Split(Join(before + [last])) == before + [last]
  {
    JoinSnoc(before, last);
    SplitOne(last);
    if before == [] {
      assert before + [last] == [last];
    } else {
      SplitAppend(Join(before), last);
    }
  }

  lemma ComponentsAreNames(p: string)
    ensures AreNames(Components(p))
  {
    SplitSlashFree(p);
    NonEmptyMembers(Split(p));
    forall i | 0 <= i < |Components(p)| ensures IsName(Components(p)[i]) {
      assert Components(p)[i] in Components(p);
    }
  }

  /** Joining names and taking components again loses nothing. */
  lemma ComponentsOfJoin(cs: seq<string>)
    requires AreNames(cs)
    ensures Components(Join(cs)) == cs
  {
    if cs == [] {
      assert Split("") == [""];
    } else {
      SplitJoin(cs);
      NonEmptyIdentity(cs);
    }
  }

  /* ---------- normalize_path ---------- */

  /** What `normalize_path` has built after reading `s`: the components, and a pending slash. */
  function Partial(s: string): string
  {
    Normalize(s) + (if Components(s) != [] && s[|s| - 1] == '/' then "/" else "")
  }

  /** One more character read, in the terms of the source loop. */
  lemma PartialStep(s: string, c: char)
    ensures c == '/' && (s == "" || s[|s| - 1] != '/') && Partial(s) != "" ==> Partial(s + [c]) == Partial(s) + [c]
    ensures c == '/' && !((s == "" || s[|s| - 1] != '/') && Partial(s) != "") ==> Partial(s + [c]) == Partial(s)
    ensures c != '/' ==> Partial(s + [c]) == Partial(s) + [c]
  {
    if c == '/' {
      PartialAfterSlash(s);
    } else if s == "" || s[|s| - 1] == '/' {
      PartialNewName(s, c);
    } else {
      PartialSameName(s, c);
    }
  }

  lemma PartialAfterSlash(s: string)
    ensures Partial(s + ['/']) ==
            if (s == "" || s[|s| - 1] != '/') && Partial(s) != "" then Partial(s) + ['/'] else Partial(s)
  {
    JoinIsEmptyOnlyForNoNames(s);
    ComponentsAfterSlash(s);
  }

  lemma PartialNewName(s: string, c: char)
    requires c != '/' && (s == "" || s[|s| - 1] == '/')
    ensures Partial(s + [c]) == Partial(s) + [c]
  {
    ComponentsAfterChar(s, c);
    JoinSnoc(Components(s), [c]);
    assert s == "" ==> Split(s) == [""];
  }

  lemma PartialSameName(s: string, c: char)
    requires c != '/' && s != "" && s[|s| - 1] != '/'
    ensures Partial(s + [c]) == Partial(s) + [c]
  {
    ComponentsAfterChar(s, c);
    JoinLonger(Components(s), Components(s + [c]), c);
  }

  lemma JoinLonger(cs: seq<string>, cs': seq<string>, c: char)
    requires cs != [] && cs' == cs[..|cs| - 1] + [cs[|cs| - 1] + [c]]
    ensures Join(cs') == Join(cs) + [c]
  {
    var before, last := cs[..|cs| - 1], cs[|cs| - 1];
    assert cs == before + [last];
    JoinSnoc(before, last);
    JoinSnoc(before, last + [c]);
  }

  lemma ComponentsAfterSlash(s: string)
    ensures Components(s + ['/']) == Components(s)
  {
    assert (s + ['/'])[..|s|] == s;
    assert (Split(s) + [""])[..|Split(s)|] == Split(s);
  }

  /** A character opens a new component after a slash and extends the last one otherwise. */
  lemma ComponentsAfterChar(s: string, c: char)
    requires c != '/'
    ensures var cs, cs' := Components(s), Components(s + [c]);
            if s == "" || s[|s| - 1] == '/' then cs' == cs + [[c]]
            else cs != [] && cs' == cs[..|cs| - 1] + [cs[|cs| - 1] + [c]]
  {
    var f := Split(s);
    var before, last := f[..|f| - 1], f[|f| - 1];
    LastFieldEmptyIffSlash(s);
    assert (s + [c])[..|s|] == s;
    assert (before + [last + [c]])[..|before|] == before;
    assert "" + [c] == [c];
  }

  lemma JoinSnoc(cs: seq<string>, c: string)
    ensures Join(cs + [c]) == if cs == [] then c else Join(cs) + "/" + c
  {
    assert (cs + [c])[..|cs|] == cs;
  }

  lemma LastFieldEmptyIffSlash(s: string)
    ensures Split(s)[|Split(s)| - 1] == "" <==> s == "" || s[|s| - 1] == '/'
  {
  }

  lemma JoinIsEmptyOnlyForNoNames(p: string)
    ensures Normalize(p) == "" <==> Components(p) == []
    ensures Normalize(p) != "" ==> Normalize(p)[0] != '/' && Normalize(p)[|Normalize(p)| - 1] != '/'
  {
    ComponentsAreNames(p);
    JoinEnds(Components(p));
  }

  lemma {:induction false} JoinEnds(cs: seq<string>)
    requires AreNames(cs)
    ensures Join(cs) == "" <==> cs == []
    ensures cs != [] ==> Join(cs)[0] != '/' && Join(cs)[|Join(cs)| - 1] != '/'
  {
    if cs != [] {
      JoinEnds(cs[..|cs| - 1]);
      assert IsName(cs[|cs| - 1]);
    }
  }

  /** `normalize_path`: the loop with its flag computes the joined components. */
  method NormalizePath(path: string) returns (result: string)
    ensures result == Normalize(path)
  {
    result := "";
    var lastWasSlash := false;
    for i := 0 to |path|
      invariant result == Partial(path[..i])
      invariant lastWasSlash <==> i > 0 && path[i - 1] == '/'
    {
      var c := path[i];
      assert path[..i + 1] == path[..i] + [c];
      PartialStep(path[..i], c);
      if c == '/' {
        if !lastWasSlash && result != "" {
          result := result + [c];
        }
        lastWasSlash := true;
      } else {
        result := result + [c];
        lastWasSlash := false;
      }
    }
    assert path[..|path|] == path;
    JoinIsEmptyOnlyForNoNames(path);
    if result != "" && result[|result| - 1] == '/' {
      result := result[..|result| - 1];
    }
  }

  predicate NoDoubleSlash(s: string)
  {
    forall i :: 0 < i < |s| && s[i] == '/' ==> s[i - 1] != '/'
  }

  lemma {:induction false} JoinHasNoDoubleSlash(cs: seq<string>)
    requires AreNames(cs)
    ensures NoDoubleSlash(Join(cs))
  {
    if cs != [] {
      JoinHasNoDoubleSlash(cs[..|cs| - 1]);
      JoinEnds(cs[..|cs| - 1]);
      assert IsName(cs[|cs| - 1]);
    }
  }

  /** A normalised path has no leading, trailing or doubled slash, and normalising is idempotent. */
  lemma NormalizeIsCanonicalForm(p: string)
    ensures Components(Normalize(p)) == Components(p)
    ensures Normalize(Normalize(p)) == Normalize(p)
    ensures NoDoubleSlash(Normalize(p))
    ensures Normalize(p) != "" ==> Normalize(p)[0] != '/' && Normalize(p)[|Normalize(p)| - 1] != '/'
  {
    ComponentsAreNames(p);
    ComponentsOfJoin(Components(p));
    JoinHasNoDoubleSlash(Components(p));
    JoinIsEmptyOnlyForNoNames(p);
  }

  /** Conversely, a string of that shape is left alone. */
  lemma NormalFormIsFixed(s: string)
    requires NoDoubleSlash(s)
    requires s != "" ==> s[0] != '/'
    ensures Partial(s) == s
    ensures s == "" || s[|s| - 1] != '/' ==> Normalize(s) == s
  {
    PartialIsFixed(s, |s|);
    assert s[..|s|] == s;
  }

  lemma PartialGrows(s: string, c: char)
    requires Partial(s) == s && (c == '/' ==> s != "" && s[|s| - 1] != '/')
    ensures Partial(s + [c]) == s + [c]
  {
    PartialStep(s, c);
  }

  lemma {:induction false} PartialIsFixed(s: string, k: nat)
    requires NoDoubleSlash(s) && k <= |s|
    requires s != "" ==> s[0] != '/'
    ensures Partial(s[..k]) == s[..k]
  {
    if k > 0 {
      var before, c := s[..k - 1], s[k - 1];
      PartialIsFixed(s, k - 1);
      assert s[..k] == before + [c];
      assert c == '/' ==> before != "" && before[k - 2] != '/';
      PartialGrows(before, c);
    }
  }

  /* ---------- is_safe_path and validate_path ---------- */

  /** The end of the field that starts at `pos`: one step of `std::getline(iss, component, '/')`. */
  method FieldEnd(path: string, pos: nat) returns (end: nat)
    requires pos <= |path|
    ensures pos <= end <= |path|
    ensures end == |path| || path[end] == '/'
    ensures '/' !in path[pos..end]
  {
    end := pos;
    while end < |path| && path[end] != '/'
      invariant pos <= end <= |path|
      invariant '/' !in path[pos..end]
    {
      assert path[pos..end + 1] == path[pos..end] + [path[end]];
      end := end + 1;
    }
  }

  lemma {:induction false} FieldRead(path: string, pos: nat, end: nat, fields: seq<string>)
    requires pos <= end <= |path|
    requires Split(path[..pos]) == fields + [""]
    requires '/' !in path[pos..end]
    ensures Split(path[..end]) == fields + [path[pos..end]]
  {
    if pos < end {
      var c := path[end - 1];
      assert path[pos..end] == path[pos..end - 1] + [c];
      FieldRead(path, pos, end - 1, fields);
      assert path[..end] == path[..end - 1] + [c];
      SplitSnoc(path[..end - 1], c);
    } else {
      assert path[pos..end] == "";
    }
  }

  /** Reading one field to its end finds the next field of the whole path. */
  lemma FieldFound(path: string, pos: nat, end: nat, fields: seq<string>)
    requires pos <= end <= |path| && (end == |path| || path[end] == '/')
    requires Split(path[..pos]) == fields + [""] && '/' !in path[pos..end]
    ensures fields + [path[pos..end]] <= Split(path)
  {
    FieldRead(path, pos, end, fields);
    SplitPrefix(path, end);
  }

  /** The fields read once the slash after the field, or the end of the path, has been passed. */
  lemma FieldPassed(path: string, pos: nat, end: nat, fields: seq<string>)
    requires pos <= end <= |path| && (end == |path| || path[end] == '/')
    requires Split(path[..pos]) == fields + [""] && '/' !in path[pos..end]
    ensures end == |path| ==> Split(path) == fields + [path[pos..end]]
    ensures end < |path| ==> Split(path[..end + 1]) == fields + [path[pos..end]] + [""]
  {
    FieldRead(path, pos, end, fields);
    if end < |path| {
      SlashPassed(path, end);
    } else {
      assert path[..end] == path;
    }
  }

  lemma SlashPassed(path: string, end: nat)
    requires end < |path| && path[end] == '/'
    ensures Split(path[..end + 1]) == Split(path[..end]) + [""]
  {
    assert path[..end + 1] == path[..end] + ['/'];
    SplitSnoc(path[..end], '/');
  }

  /** The fields before `pos`, which is where the next field begins, or one past the end. */
  ghost predicate ReadUpTo(path: string, pos: nat, fields: seq<string>)
  {
    if pos <= |path| then Split(path[..pos]) == fields + [""] else Split(path) == fields
  }

  lemma FieldNext(path: string, pos: nat, end: nat, fields: seq<string>)
    requires pos <= end <= |path| && (end == |path| || path[end] == '/') && '/' !in path[pos..end]
    requires ReadUpTo(path, pos, fields)
    ensures ReadUpTo(path, end + 1, fields + [path[pos..end]])
    ensures fields + [path[pos..end]] <= Split(path)
  {
    FieldFound(path, pos, end, fields);
    FieldPassed(path, pos, end, fields);
  }

  lemma AllRead(path: string, pos: nat, fields: seq<string>)
    requires ReadUpTo(path, pos, fields) && pos >= |path|
    ensures Split(path) == fields || Split(path) == fields + [""]
  {
    assert path[..|path|] == path;
  }

  /** `is_safe_path`: reads '/'-terminated fields one by one, as `std::getline` does. */
  method IsSafePath(path: string) returns (safe: bool)
    ensures safe <==> Safe(path)
  {
    if path != "" && path[0] == '/' {
      return false;
    }
    var components: seq<string> := [];
    var pos := 0;
    ghost var fields: seq<string> := [];
    while pos < |path|
      invariant ReadUpTo(path, pos, fields)
      invariant Kept(components, fields)
    {
      var end := FieldEnd(path, pos);
      FieldNext(path, pos, end, fields);
      var component := path[pos..end];
      KeptNext(components, fields, component);
      pos := end + 1;
      if component == "" || component == "." {
      } else if component == ".." {
        DotDotFound(path, fields);
        return false;
      } else {
        components := components + [component];
      }
      fields := fields + [component];
    }
    AllRead(path, pos, fields);
    safe := NoNul(components);
    KeptDecides(path, components, fields);
  }

  /** The fields read so far hold no "..", and the ones worth checking were collected. */
  ghost predicate Kept(components: seq<string>, fields: seq<string>)
  {
    && (forall c :: c in components <==> c in fields && c != "" && c != ".")
    && ".." !in fields
  }

  lemma KeptNext(components: seq<string>, fields: seq<string>, c: string)
    requires Kept(components, fields)
    ensures c == "" || c == "." ==> Kept(components, fields + [c])
    ensures c != "" && c != "." && c != ".." ==> Kept(components + [c], fields + [c])
  {
  }

  lemma DotDotFound(path: string, fields: seq<string>)
    requires fields + [".."] <= Split(path)
    ensures !Safe(path)
  {
    assert Split(path)[|fields|] == "..";
  }

  method NoNul(components: seq<string>) returns (ok: bool)
    ensures ok <==> forall c :: c in components ==> '\0' !in c
  {
    for i := 0 to |components|
      invariant forall j :: 0 <= j < i ==> '\0' !in components[j]
    {
      if '\0' in components[i] {
        return false;
      }
    }
    return true;
  }

  lemma KeptDecides(path: string, components: seq<string>, fields: seq<string>)
    requires path == "" || path[0] != '/'
    requires Kept(components, fields)
    requires Split(path) == fields || Split(path) == fields + [""]
    ensures Safe(path) <==> forall c :: c in components ==> '\0' !in c
  {
    if Safe(path) {
      forall c | c in components ensures '\0' !in c {
        assert c in fields;
        assert c in Split(path);
      }
    }
    if forall c :: c in components ==> '\0' !in c {
      forall i | 0 <= i < |Split(path)| ensures SafeField(Split(path)[i]) {
        var c := Split(path)[i];
        assert c == "" || c in fields;
        assert c == "" || c == "." || c in components;
      }
    }
  }

  /** A field closed by the end of a prefix stays a field of the whole string. */
  lemma {:induction false} SplitPrefix(s: string, end: nat)
    requires end <= |s|
    requires end == |s| || s[end] == '/'
    ensures Split(s[..end]) <= Split(s)
  {
    if end == |s| {
      assert s[..end] == s;
    } else {
      assert s == s[..end] + "/" + s[end + 1..];
      SplitAppend(s[..end], s[end + 1..]);
    }
  }

  /** `validate_path`. */
  method ValidatePath(path: string) returns (status: Status)
    ensures status == if Accepted(path) then Fine else Failed(InvalidPath)
  {
    if |path| > MAX_PATH {
      return Failed(InvalidPath);
    }
    var safe := IsSafePath(path);
    return if safe then Fine else Failed(InvalidPath);
  }

  /** The loop of `resolve_path` that drops leading slashes, and how often its body ran. */
  method StripLeadingSlashes(s: string) returns (clean: string, passes: nat)
    ensures passes <= |s| && clean == s[passes..]
    ensures forall i :: 0 <= i < passes ==> s[i] == '/'
    ensures clean == "" || clean[0] != '/'
  {
    clean, passes := s, 0;
    while clean != "" && clean[0] == '/'
      invariant passes <= |s| && clean == s[passes..]
      invariant forall i :: 0 <= i < passes ==> s[i] == '/'
      decreases |clean|
    {
      clean, passes := clean[1..], passes + 1;
    }
  }

  /** `resolve_path`: the result names what the raw path names below the base.  Its slash-stripping loop
      never runs its body. */
  method ResolvePath(base: string, path: string) returns (full: string, passes: nat)
    ensures full == Resolve(base, path)
    ensures base <= full && Components(full) == Components(base) + Components(path)
    ensures passes == 0
  {
    ResolvedComponents(base, path);
    var clean := NormalizePath(path);
    JoinIsEmptyOnlyForNoNames(path);
    clean, passes := StripLeadingSlashes(clean);
    full := if clean == "" then base else base + "/" + clean;
  }

  /* ---------- What validation guarantees about the resolved path ---------- */

  /** The depth below the base after walking `names` lexically. */
  function Walk(names: seq<string>): int
  {
    if names == [] then 0
    else
      var depth, last := Walk(names[..|names| - 1]), names[|names| - 1];
      if last == "" || last == "." then depth
      else if last == ".." then depth - 1
      else depth + 1
  }

  lemma {:induction false} WalkStaysInside(names: seq<string>, k: nat)
    requires forall i :: 0 <= i < |names| ==> names[i] != ".."
    requires k <= |names|
    ensures 0 <= Walk(names[..k]) <= k
  {
    if k > 0 {
      WalkStaysInside(names, k - 1);
      assert names[..k][..k - 1] == names[..k - 1];
    }
  }

  lemma {:induction false} NormalizeShortens(s: string)
    ensures |Normalize(s)| <= |Partial(s)| <= |s|
  {
    if s != "" {
      NormalizeShortens(s[..|s| - 1]);
      assert s == s[..|s| - 1] + [s[|s| - 1]];
      PartialStep(s[..|s| - 1], s[|s| - 1]);
    }
  }

  lemma {:induction false} JoinChars(cs: seq<string>)
    ensures forall x :: x in Join(cs) ==> x == '/' || exists i :: 0 <= i < |cs| && x in cs[i]
  {
    if |cs| > 1 {
      JoinChars(cs[..|cs| - 1]);
      forall x | x in Join(cs) ensures x == '/' || exists i :: 0 <= i < |cs| && x in cs[i] {
        if x in Join(cs[..|cs| - 1]) && x != '/' {
          var i :| 0 <= i < |cs| - 1 && x in cs[..|cs| - 1][i];
          assert x in cs[i];
        }
      }
    } else if |cs| == 1 {
      assert forall x :: x in Join(cs) ==> x in cs[0];
    }
  }

  /** Fields of a safe path, whether or not they are empty, are safe; so are its components. */
  lemma SafeComponents(p: string)
    requires Safe(p)
    ensures forall i :: 0 <= i < |Components(p)| ==> SafeField(Components(p)[i])
  {
    NonEmptyMembers(Split(p));
    forall i | 0 <= i < |Components(p)| ensures SafeField(Components(p)[i]) {
      assert Components(p)[i] in Split(p);
    }
  }

  /** Accepting a path also accepts its normal form, keeps every prefix of the walk at or below
      the base, keeps NUL out of what is resolved, and bounds the resolved length. */
  lemma AcceptedResolvesInside(base: string, p: string)
    requires Accepted(p)
    ensures Accepted(Normalize(p))
    ensures forall k :: 0 <= k <= |Split(Normalize(p))| ==> Walk(Split(Normalize(p))[..k]) >= 0
    ensures '\0' !in Normalize(p)
    ensures |Resolve(base, p)| <= |base| + 1 + MAX_PATH
  {
    var fields := Split(Normalize(p));
    NormalizeShortens(p);
    JoinIsEmptyOnlyForNoNames(p);
    NormalFieldsAreSafe(p);
    NormalHasNoNul(p);
    forall k | 0 <= k <= |fields| ensures Walk(fields[..k]) >= 0 {
      WalkStaysInside(fields, k);
    }
  }

  lemma NormalFieldsAreSafe(p: string)
    requires Safe(p)
    ensures forall i :: 0 <= i < |Split(Normalize(p))| ==> SafeField(Split(Normalize(p))[i])
  {
    ComponentsAreNames(p);
    SafeComponents(p);
    if Components(p) == [] {
      assert Split(Normalize(p)) == [""];
    } else {
      SplitJoin(Components(p));
    }
  }

  lemma NormalHasNoNul(p: string)
    requires Safe(p)
    ensures '\0' !in Normalize(p)
  {
    SafeComponents(p);
    JoinChars(Components(p));
  }

  lemma {:induction false} NonEmptyAppend(a: seq<string>, b: seq<string>)
    ensures NonEmpty(a + b) == NonEmpty(a) + NonEmpty(b)
  {
    if b == [] {
      assert a + b == a;
    } else {
      assert (a + b)[..|a + b| - 1] == a + b[..|b| - 1];
      NonEmptyAppend(a, b[..|b| - 1]);
    }
  }

  lemma {:induction false} WalkAppend(a: seq<string>, b: seq<string>)
    ensures Walk(a + b) == Walk(a) + Walk(b)
  {
    if b == [] {
      assert a + b == a;
    } else {
      assert (a + b)[..|a + b| - 1] == a + b[..|b| - 1];
      WalkAppend(a, b[..|b| - 1]);
    }
  }

  /** The resolved string is the base followed by the names of the raw path. */
  lemma ResolvedComponents(base: string, p: string)
    ensures base <= Resolve(base, p)
    ensures Components(Resolve(base, p)) == Components(base) + Components(p)
  {
    JoinIsEmptyOnlyForNoNames(p);
    if Components(p) != [] {
      SplitAppend(base, Normalize(p));
      NonEmptyAppend(Split(base), Split(Normalize(p)));
      NormalizeIsCanonicalForm(p);
    }
  }

  /** Walking the resolved string field by field, an accepted path never leaves the base again once the
      walk has arrived there. */
  lemma ResolvedStaysBelowBase(base: string, p: string, k: nat)
    requires Accepted(p) && |Split(base)| <= k <= |Split(Resolve(base, p))|
    ensures Split(base) <= Split(Resolve(base, p))
    ensures Walk(Split(Resolve(base, p))[..k]) >= Walk(Split(base))
  {
    var here, fields := Split(base), Split(Resolve(base, p));
    if Normalize(p) == "" {
      assert fields[..k] == here;
    } else {
      SplitAppend(base, Normalize(p));
      NormalFieldsAreSafe(p);
      WalkBelow(here, Split(Normalize(p)), k);
    }
  }

  lemma WalkBelow(here: seq<string>, below: seq<string>, k: nat)
    requires |here| <= k <= |here + below|
    requires forall i :: 0 <= i < |below| ==> SafeField(below[i])
    ensures Walk((here + below)[..k]) >= Walk(here)
  {
    WalkStaysInside(below, k - |here|);
    assert (here + below)[..k] == here + below[..k - |here|];
    WalkAppend(here, below[..k - |here|]);
  }

  /* ---------- Acceptance, character by character ---------- */

  /** Field `k` of a string lies between slashes or the ends; the last one ends the string. */
  lemma {:induction false} FieldLies(s: string, k: nat) returns (i: nat, j: nat)
    requires k < |Split(s)|
    ensures i <= j <= |s| && Split(s)[k] == s[i..j]
    ensures (i == 0 || s[i - 1] == '/') && (j == |s| || s[j] == '/')
    ensures k == |Split(s)| - 1 <==> j == |s|
  {
    if s == "" {
      i, j := 0, 0;
    } else {
      var before, c := s[..|s| - 1], s[|s| - 1];
      var last := k == |Split(s)| - 1;
      if c == '/' && last {
        i, j := |s|, |s|;
      } else {
        i, j := FieldLies(before, k);
        SliceOfPrefix(s, i, j);
        j := if last then |s| else j;
      }
    }
  }

  lemma SliceOfPrefix(s: string, i: nat, j: nat)
    requires i <= j < |s|
    ensures s[i..j] == s[..|s| - 1][i..j]
    ensures j == |s| - 1 ==> s[i..] == s[i..j] + [s[j]] && s[i..|s|] == s[i..]
  {
  }

  /** Conversely, what lies between slashes or the ends is a field. */
  lemma LiesAsField(s: string, i: nat, j: nat)
    requires i <= j <= |s| && '/' !in s[i..j]
    requires (i == 0 || s[i - 1] == '/') && (j == |s| || s[j] == '/')
    ensures s[i..j] in Split(s)
  {
    CutAtSlash(s, i, j);
    LastField(if i > 0 then s[..i - 1] else "", s[i..j], s[..j]);
    SplitPrefix(s, j);
    InLonger(s[i..j], Split(s[..j]), Split(s));
  }

  lemma CutAtSlash(s: string, i: nat, j: nat)
    requires i <= j <= |s| && (i == 0 || s[i - 1] == '/')
    ensures s[..j] == if i == 0 then s[i..j] else s[..i - 1] + "/" + s[i..j]
  {
  }

  lemma InLonger(c: string, a: seq<string>, b: seq<string>)
    requires c in a && a <= b
    ensures c in b
  {
  }

  lemma LastField(a: string, c: string, s: string)
    requires '/' !in c && (s == c || s == a + "/" + c)
    ensures c in Split(s)
  {
    SplitOne(c);
    SplitAppend(a, c);
    assert Split(s)[|Split(s)| - 1] == c;
  }

  /** ".." stands as a whole name at position `i`. */
  predicate ClimbsAt(s: string, i: nat)
  {
    && i + 2 <= |s| && s[i] == '.' && s[i + 1] == '.'
    && (i == 0 || s[i - 1] == '/') && (i + 2 == |s| || s[i + 2] == '/')
  }

  lemma ClimbsIsField(s: string)
    ensures ".." in Split(s) <==> exists i :: ClimbsAt(s, i)
  {
    if ".." in Split(s) {
      var k :| 0 <= k < |Split(s)| && Split(s)[k] == "..";
      var i, j := FieldLies(s, k);
      assert s[i] == s[i..j][0] && s[i + 1] == s[i..j][1];
      assert ClimbsAt(s, i);
    }
    if exists i :: ClimbsAt(s, i) {
      var i: nat :| ClimbsAt(s, i);
      assert s[i..i + 2] == "..";
      LiesAsField(s, i, i + 2);
    }
  }

  lemma {:induction false} NulIsInField(s: string)
    ensures '\0' in s <==> exists k :: 0 <= k < |Split(s)| && '\0' in Split(s)[k]
  {
    if '\0' in s {
      var x :| 0 <= x < |s| && s[x] == '\0';
      FieldHolds(s, x);
    }
    if exists k :: 0 <= k < |Split(s)| && '\0' in Split(s)[k] {
      var k :| 0 <= k < |Split(s)| && '\0' in Split(s)[k];
      var i, j := FieldLies(s, k);
      assert '\0' in s[i..j];
    }
  }

  lemma {:induction false} FieldHolds(s: string, x: nat)
    requires x < |s| && s[x] != '/'
    ensures exists k :: 0 <= k < |Split(s)| && s[x] in Split(s)[k]
  {
    var before, c := s[..|s| - 1], s[|s| - 1];
    if x < |before| {
      FieldHolds(before, x);
      var k :| 0 <= k < |Split(before)| && s[x] in Split(before)[k];
      assert s[x] in Split(s)[k];
    } else {
      assert s[x] in Split(s)[|Split(s)| - 1];
    }
  }

  /** Exactly the paths of at most 4096 characters that do not begin with a slash, hold no NUL, and have no
      ".." between slashes or ends. */
  lemma AcceptedExactly(p: string)
    ensures Accepted(p) <==>
              && |p| <= 4096 && (p != "" ==> p[0] != '/') && '\0' !in p
              && !exists i :: ClimbsAt(p, i)
  {
    ClimbsIsField(p);
    NulIsInField(p);
    assert (forall k :: 0 <= k < |Split(p)| ==> SafeField(Split(p)[k])) <==>
           ".." !in Split(p) && forall k :: 0 <= k < |Split(p)| ==> '\0' !in Split(p)[k];
  }

  /* ---------- Lock keys and the files they stand for ---------- */

  /** What the kernel looks up: the names without ".", and whether the last name was ".". */
  datatype Target = Target(path: seq<string>, dot: bool)

  function DropDots(cs: seq<string>): seq<string>
  {
    if cs == [] then []
    else
      var before, last := DropDots(cs[..|cs| - 1]), cs[|cs| - 1];
      if last == "." then before else before + [last]
  }

  function TargetOf(p: string): Target
  {
    var cs := Components(p);
    Target(DropDots(cs), cs != [] && cs[|cs| - 1] == ".")
  }

  /** The lookup name by name: a "." stays where it is and is remembered if it comes last, any other name
      goes one step down, and further slashes mean nothing. */
  lemma TargetByNames(p: string, c: string)
    requires IsName(c)
    ensures TargetOf("") == Target([], false)
    ensures TargetOf(c) == Target(if c == "." then [] else [c], c == ".")
    ensures TargetOf(p + "/") == TargetOf(p)
    ensures TargetOf(p + "/" + c) == Target(TargetOf(p).path + (if c == "." then [] else [c]), c == ".")
  {
    assert Split("") == [""];
    SplitOne(c);
    NonEmptyIdentity([c]);
    DropDotsSnoc([], c);
    assert [] + [c] == [c];
    ComponentsAfterSlash(p);
    SplitAppend(p, c);
    NonEmptyAppend(Split(p), [c]);
    DropDotsSnoc(Components(p), c);
  }

  lemma DropDotsSnoc(cs: seq<string>, c: string)
    ensures DropDots(cs + [c]) == DropDots(cs) + if c == "." then [] else [c]
  {
    assert (cs + [c])[..|cs|] == cs;
  }

  /** A raw path that is its own normal form and has no "." component. */
  predicate Canonical(p: string)
  {
    Normalize(p) == p && "." !in Components(p)
  }

  lemma {:induction false} DropDotsIdentity(cs: seq<string>)
    requires "." !in cs
    ensures DropDots(cs) == cs
  {
    if cs != [] {
      DropDotsIdentity(cs[..|cs| - 1]);
    }
  }

  /** Names that make up an accepted raw path. */
  ghost predicate Plainly(cs: seq<string>)
  {
    && AreNames(cs) && |Join(cs)| <= MAX_PATH
    && forall i :: 0 <= i < |cs| ==> SafeField(cs[i]) && cs[i] != "."
  }

  lemma PlainPath(cs: seq<string>)
    requires Plainly(cs) && cs != []
    ensures Accepted(Join(cs)) && TargetOf(Join(cs)) == Target(cs, false)
  {
    SplitJoin(cs);
    JoinEnds(cs);
    ComponentsOfJoin(cs);
    DropDotsIdentity(cs);
  }

  lemma CanonicalTargets(p: string, q: string)
    requires Canonical(p) && Canonical(q)
    ensures TargetOf(p).path == TargetOf(q).path ==> p == q
  {
    DropDotsIdentity(Components(p));
    DropDotsIdentity(Components(q));
  }

  /** On canonical paths the lock key determines the resolved path and the file, and conversely. */
  lemma CanonicalKeysAreFaithful(base: string, p: string, q: string)
    requires Canonical(p) && Canonical(q)
    ensures p == q <==> Resolve(base, p) == Resolve(base, q)
    ensures p == q <==> TargetOf(p) == TargetOf(q)
    ensures p == q <==> TargetOf(p).path == TargetOf(q).path
    ensures !TargetOf(p).dot
  {
    DropDotsIdentity(Components(p));
    DropDotsIdentity(Components(q));
    if Resolve(base, p) == Resolve(base, q) && p != "" && q != "" {
      assert p == Resolve(base, p)[|base| + 1..];
      assert q == Resolve(base, q)[|base| + 1..];
    }
  }

  /** What is resolved below the base has the names of the raw path: the kernel looks up `TargetOf(p)`. */
  lemma ResolvingKeepsTarget(p: string)
    ensures TargetOf(Normalize(p)) == TargetOf(p)
  {
    NormalizeIsCanonicalForm(p);
  }

  /** Two raw paths resolve to one string exactly when they have the same components. */
  lemma ResolveIdentifies(base: string, p: string, q: string)
    ensures Resolve(base, p) == Resolve(base, q) <==> Components(p) == Components(q)
  {
    NormalizeIsCanonicalForm(p);
    NormalizeIsCanonicalForm(q);
    if Resolve(base, p) == Resolve(base, q) {
      if Normalize(p) != "" && Normalize(q) != "" {
        assert Normalize(p) == Resolve(base, p)[|base| + 1..];
        assert Normalize(q) == Resolve(base, q)[|base| + 1..];
      }
      assert Normalize(p) == Normalize(q);
    }
  }
}
