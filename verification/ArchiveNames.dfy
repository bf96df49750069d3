/** Entry names of a batch archive: a repeated name gets the first free numeric suffix. */
module ArchiveNames {
  import opened Numerals

  /** The mutable map shared by all calls of one archive; a missing name counts zero. */
  class UsedNames {
    var counts: map<string, nat>

    constructor ()
      ensures counts == map[]
    {
      counts := map[];
    }

    function Count(name: string): nat
      reads this
    {
      if name in counts then counts[name] else 0
    }
  }

  /** filepath.Ext: from the last dot of the last path element, or nothing. */
  function ExtensionStart(name: string, n: nat): (i: nat)
    requires n <= |name|
    ensures i <= |name|
  {
    if n == 0 || name[n - 1] == '/' then |name|
    else if name[n - 1] == '.' then n - 1
    else ExtensionStart(name, n - 1)
  }

  function Candidate(name: string, suffix: nat): string {
    var at := ExtensionStart(name, |name|);
    name[..at] + "-" + Decimal(suffix) + name[at..]
  }

  lemma {:induction false} ExtensionAt(name: string, n: nat, dot: nat)
    requires dot < n <= |name| && name[dot] == '.' && forall i :: dot < i < n ==> name[i] != '.' && name[i] != '/'
    ensures ExtensionStart(name, n) == dot
  {
    if n > dot + 1 {
      ExtensionAt(name, n - 1, dot);
    }
  }

  lemma {:induction false} NoExtension(name: string, n: nat)
    requires n <= |name| && forall i :: 0 <= i < n && name[i] == '.' ==> exists k :: i < k < n && name[k] == '/'
    ensures ExtensionStart(name, n) == |name|
  {
    if n > 0 && name[n - 1] != '/' {
      assert name[n - 1] != '.';
      forall i | 0 <= i < n - 1 && name[i] == '.' ensures exists k :: i < k < n - 1 && name[k] == '/' {
        var k :| i < k < n && name[k] == '/';
      }
      NoExtension(name, n - 1);
    }
  }

  /** The suffix stands between the stem and the extension, or at the end of a name without one. */
  lemma CandidateShape(stem: string, extension: string, suffix: nat)
    requires '.' !in extension && '/' !in extension
    ensures Candidate(stem + "." + extension, suffix) == stem + "-" + Decimal(suffix) + "." + extension
    ensures '.' !in stem ==> Candidate(stem, suffix) == stem + "-" + Decimal(suffix)
  {
    var name := stem + "." + extension;
    ExtensionAt(name, |name|, |stem|);
    assert name[..|stem|] == stem && name[|stem|..] == "." + extension;
    assert stem + "-" + Decimal(suffix) + ("." + extension) == stem + "-" + Decimal(suffix) + "." + extension;
    if '.' !in stem {
      NoExtension(stem, |stem|);
      assert stem[..|stem|] == stem && stem[|stem|..] == "";
    }
  }

  lemma CandidateInjective(name: string, a: nat, b: nat)
    requires Candidate(name, a) == Candidate(name, b)
    ensures a == b
  {
    var at := ExtensionStart(name, |name|);
    var x, y := Candidate(name, a), Candidate(name, b);
    assert x[at + 1..|x| - (|name| - at)] == Decimal(a);
    assert y[at + 1..|y| - (|name| - at)] == Decimal(b);
    DecimalInjective(a, b);
  }

  /** suffix is the first one from lo on whose candidate is free. */
  ghost predicate FirstFree(counts: map<string, nat>, name: string, lo: nat, suffix: nat) {
    && lo <= suffix
    && (Candidate(name, suffix) !in counts || counts[Candidate(name, suffix)] == 0)
    && forall k {:trigger Candidate(name, k)} :: lo <= k < suffix ==> Candidate(name, k) in counts && counts[Candidate(name, k)] > 0
  }

  /** The returned name was free and is taken from now on; a taken name gets the least free suffix above its count.
      The search ends because different suffixes give different candidates and only finitely many are taken. */
  method UniqueName(name: string, used: UsedNames) returns (entry: string)
    modifies used
    ensures old(used.Count(entry)) == 0
    ensures old(used.Count(name)) == 0 ==> entry == name && used.counts == old(used.counts)[name := 1]
    ensures old(used.Count(name)) > 0 ==>
              var c := old(used.Count(name));
              && (exists k :: entry == Candidate(name, k) && FirstFree(old(used.counts)[name := c + 1], name, c + 1, k))
              && used.counts == old(used.counts)[name := c + 1][entry := 1]
  {
    var count := used.Count(name);
    used.counts := used.counts[name := count + 1];
    if count == 0 {
      return name;
    }
    var suffix := count + 1;
    ghost var open := used.counts.Keys;
    while used.Count(Candidate(name, suffix)) != 0
      invariant suffix >= count + 1 && used.counts == old(used.counts)[name := count + 1]
      invariant forall k {:trigger Candidate(name, k)} :: count + 1 <= k < suffix ==> used.Count(Candidate(name, k)) > 0
      invariant open <= used.counts.Keys
      invariant forall k {:trigger Candidate(name, k)} :: k >= suffix && Candidate(name, k) in used.counts ==> Candidate(name, k) in open
      decreases |open|
    {
      ghost var taken := Candidate(name, suffix);
      forall k | k >= suffix + 1 && Candidate(name, k) in used.counts ensures Candidate(name, k) in open - {taken} {
        if Candidate(name, k) == taken { CandidateInjective(name, k, suffix); }
      }
      ShrinkSize(open, taken);
      open := open - {taken};
      suffix := suffix + 1;
    }
    entry := Candidate(name, suffix);
    assert FirstFree(used.counts, name, count + 1, suffix);
    used.counts := used.counts[entry := 1];
  }

  lemma ShrinkSize(s: set<string>, x: string)
    requires x in s
    ensures |s - {x}| < |s|
  {}

  ghost predicate Distinct(s: seq<string>) {
    forall i, j :: 0 <= i < j < |s| ==> s[i] != s[j]
  }

  /** Taken names after some entries were issued: every requested and every issued name, and nothing else. */
  ghost predicate Taken(counts: map<string, nat>, names: seq<string>, entries: seq<string>) {
    forall n :: (n in counts && counts[n] > 0) <==> (n in names || n in entries)
  }

  /** The naming loop of one archive.  Whatever the input names, even ones that look generated, no two entries
      collide, and an entry keeps its own name exactly when nothing before asked for it or was given it. */
  method EntryNames(names: seq<string>) returns (entries: seq<string>)
    ensures |entries| == |names| && Distinct(entries)
    ensures forall i :: 0 <= i < |names| ==>
              (entries[i] == names[i] <==> names[i] !in names[..i] && names[i] !in entries[..i])
    ensures forall i :: 0 <= i < |names| ==> entries[i] == names[i] || exists k :: entries[i] == Candidate(names[i], k)
  {
    var used := new UsedNames();
    entries := [];
    for i := 0 to |names|
      invariant |entries| == i && Distinct(entries)
      invariant Taken(used.counts, names[..i], entries)
      invariant forall k :: 0 <= k < i ==>
        (entries[k] == names[k] <==> names[k] !in names[..k] && names[k] !in entries[..k])
      invariant forall k :: 0 <= k < i ==> entries[k] == names[k] || exists n :: entries[k] == Candidate(names[k], n)
    {
      var entry := UniqueName(names[i], used);
      assert entry !in names[..i] && entry !in entries;
      ghost var before := entries;
      assert names[..i + 1] == names[..i] + [names[i]];
      entries := entries + [entry];
      assert forall k :: 0 <= k <= i ==> entries[..k] == before[..k];
      assert before[..i] == before;
    }
  }
}
