/** Splitting an ARM resource URI into resource group, type and name
    (app_api/jobs/catchup.js:220-229). */
module ResourceUri {
  import opened Basics

  /** Parts of `s` between occurrences of `sep`, as `String.prototype.split`
      with a one-character separator: there is always at least one part. */
  function Split(s: string, sep: char): (parts: seq<string>)
    ensures |parts| >= 1
  {
    if |s| == 0 then [""]
    else
      var rest := Split(s[1..], sep);
      if s[0] == sep then [""] + rest
      else [[s[0]] + rest[0]] + rest[1..]
  }

  /** The parts hold no separator, and joining them gives the input back. */
  lemma {:induction false} SplitSpec(s: string, sep: char)
    ensures forall p :: p in Split(s, sep) ==> sep !in p
    ensures Join(Split(s, sep), sep) == s
  {
    if |s| > 0 {
      SplitSpec(s[1..], sep);
      var rest := Split(s[1..], sep);
      if s[0] == sep {
        assert Join([""] + rest, sep) == "" + [sep] + Join(rest, sep);
        assert s == [s[0]] + s[1..];
      } else {
        assert rest == [rest[0]] + rest[1..];
        var parts := [[s[0]] + rest[0]] + rest[1..];
        assert forall p :: p in parts ==> p == [s[0]] + rest[0] || p in rest;
        if |rest| == 1 {
          assert Join(parts, sep) == [s[0]] + rest[0];
        } else {
          assert Join(parts, sep) == [s[0]] + rest[0] + [sep] + Join(rest[1..], sep);
          assert Join(rest, sep) == rest[0] + [sep] + Join(rest[1..], sep);
        }
        assert s == [s[0]] + s[1..];
      }
    }
  }

  /** The parts glued back together with the separator between them. */
  function Join(parts: seq<string>, sep: char): string
    requires |parts| >= 1
  {
    if |parts| == 1 then parts[0] else parts[0] + [sep] + Join(parts[1..], sep)
  }

  lemma {:induction false} SplitPrefix(p: string, sep: char, t: string)
    requires sep !in p
    ensures Split(p + [sep] + t, sep) == [p] + Split(t, sep)
  {
    if |p| == 0 {
      assert p + [sep] + t == [sep] + t;
      assert ([sep] + t)[1..] == t;
    } else {
      assert (p + [sep] + t)[1..] == p[1..] + [sep] + t;
      SplitPrefix(p[1..], sep, t);
      assert [p[0]] + p[1..] == p;
    }
  }

  /** Splitting undoes joining: the two are inverse on separator-free parts. */
  lemma {:induction false} SplitJoin(parts: seq<string>, sep: char)
    requires |parts| >= 1
    requires forall p :: p in parts ==> sep !in p
    ensures Split(Join(parts, sep), sep) == parts
  {
    if |parts| == 1 {
      SplitNoSeparator(parts[0], sep);
    } else {
      SplitJoin(parts[1..], sep);
      SplitPrefix(parts[0], sep, Join(parts[1..], sep));
      assert parts == [parts[0]] + parts[1..];
    }
  }

  lemma {:induction false} SplitNoSeparator(s: string, sep: char)
    requires sep !in s
    ensures Split(s, sep) == [s]
  {
    if |s| > 0 {
      SplitNoSeparator(s[1..], sep);
      assert [s[0]] + s[1..] == s;
    }
  }

  /** ASCII lower-casing, what `toLowerCase` does on the keywords compared here. */
  function LowerChar(c: char): char {
    if 'A' <= c <= 'Z' then (c as int + 32) as char else c
  }

  function ToLower(s: string): string {
    seq(|s|, i requires 0 <= i < |s| => LowerChar(s[i]))
  }

  /** Segment j follows a segment that equals `kw` ignoring case. */
  predicate KeywordAt(segs: seq<string>, j: int, kw: string) {
    1 <= j < |segs| && ToLower(segs[j - 1]) == kw
  }

  /** `segs[j] + "/" + segs[j+1]`; past the end JavaScript reads `undefined`,
      which string concatenation spells out. */
  function TypeAt(segs: seq<string>, j: int): string
    requires 0 <= j < |segs|
  {
    segs[j] + "/" + (if j + 1 < |segs| then segs[j + 1] else "undefined")
  }

  datatype Resource = Resource(group: Option<string>, rtype: Option<string>, name: Option<string>)

  /** The scan of catchup.js:224-229 from segment j on, carrying the values
      found so far; a later keyword overwrites an earlier one. */
  function Scan(segs: seq<string>, j: nat, group: Option<string>, rtype: Option<string>)
    : (Option<string>, Option<string>)
    requires 1 <= j <= |segs|
    decreases |segs| - j
  {
    if j == |segs| then (group, rtype)
    else if ToLower(segs[j - 1]) == "resourcegroups" then Scan(segs, j + 1, Some(segs[j]), rtype)
    else if ToLower(segs[j - 1]) == "providers" then Scan(segs, j + 1, group, Some(TypeAt(segs, j)))
    else Scan(segs, j + 1, group, rtype)
  }

  /** Resource group, type and name of an ARM resource URI. */
  function ParseArmUri(uri: string): Resource
  {
    var segs := Split(uri, '/');
    var (g, t) := Scan(segs, 1, None, None);
    Resource(g, t, Some(segs[|segs| - 1]))
  }

  /** Independent reference: the last index j >= lo with KeywordAt, if any,
      looking from the right. */
  function LastKeyword(segs: seq<string>, kw: string, lo: nat, hi: int): (r: Option<int>)
    requires hi <= |segs|
    ensures r.Some? ==> lo <= r.value < hi && KeywordAt(segs, r.value, kw)
    ensures r.Some? ==> forall j :: r.value < j < hi ==> !KeywordAt(segs, j, kw)
    ensures r.None? ==> forall j :: lo <= j < hi ==> !KeywordAt(segs, j, kw)
    decreases hi
  {
    if hi <= lo then None
    else if KeywordAt(segs, hi - 1, kw) then Some(hi - 1)
    else LastKeyword(segs, kw, lo, hi - 1)
  }

  lemma {:induction false} LastKeywordStep(segs: seq<string>, kw: string, j: nat)
    requires 1 <= j < |segs|
    ensures LastKeyword(segs, kw, j, |segs|) ==
      match LastKeyword(segs, kw, j + 1, |segs|)
      case Some(k) => Some(k)
      case None => if KeywordAt(segs, j, kw) then Some(j) else None
  {
    var a := LastKeyword(segs, kw, j, |segs|);
    var b := LastKeyword(segs, kw, j + 1, |segs|);
    if a.Some? && b.Some? {
      if a.value < b.value {
        assert false;
      } else if b.value < a.value {
        assert false;
      }
    }
  }

  lemma {:induction false} ScanFindsLast(segs: seq<string>, j: nat, group: Option<string>, rtype: Option<string>)
    requires 1 <= j <= |segs|
    ensures Scan(segs, j, group, rtype).0 ==
      match LastKeyword(segs, "resourcegroups", j, |segs|)
      case Some(k) => Some(segs[k])
      case None => group
    ensures Scan(segs, j, group, rtype).1 ==
      match LastKeyword(segs, "providers", j, |segs|)
      case Some(k) => Some(TypeAt(segs, k))
      case None => rtype
    decreases |segs| - j
  {
    if j < |segs| {
      LastKeywordStep(segs, "resourcegroups", j);
      LastKeywordStep(segs, "providers", j);
      if ToLower(segs[j - 1]) == "resourcegroups" {
        ScanFindsLast(segs, j + 1, Some(segs[j]), rtype);
      } else if ToLower(segs[j - 1]) == "providers" {
        ScanFindsLast(segs, j + 1, group, Some(TypeAt(segs, j)));
      } else {
        ScanFindsLast(segs, j + 1, group, rtype);
      }
    }
  }

  /** The resource group is the segment after the last segment equal to
      `resourcegroups` ignoring case, the type is the two segments after the
      last `providers`, and the name is the final segment; a missing keyword
      leaves its field undefined. */
  lemma ParseArmUriSpec(uri: string)
    ensures var segs := Split(uri, '/'); var r := ParseArmUri(uri);
      && r.name == Some(segs[|segs| - 1])
      && (r.group.None? <==> forall j :: 1 <= j < |segs| ==> !KeywordAt(segs, j, "resourcegroups"))
      && (r.group.Some? ==> (exists j :: KeywordAt(segs, j, "resourcegroups") && r.group.value == segs[j]
                                && forall j' :: j < j' < |segs| ==> !KeywordAt(segs, j', "resourcegroups")))
      && (r.rtype.None? <==> forall j :: 1 <= j < |segs| ==> !KeywordAt(segs, j, "providers"))
      && (r.rtype.Some? ==> (exists j :: KeywordAt(segs, j, "providers") && r.rtype.value == TypeAt(segs, j)
                                && forall j' :: j < j' < |segs| ==> !KeywordAt(segs, j', "providers")))
  {
    var segs := Split(uri, '/');
    ScanFindsLast(segs, 1, None, None);
  }

  /** Segments of "/subscriptions/s/resourceGroups/rg1/providers/Microsoft.Compute/virtualMachines/vm1". */
  const ExampleSegments: seq<string> := ["", "subscriptions", "s", "resourceGroups", "rg1", "providers",
                                         "Microsoft.Compute", "virtualMachines", "vm1"]

  lemma ExampleScan()
    ensures Scan(ExampleSegments, 1, None, None) == (Some("rg1"), Some("Microsoft.Compute/virtualMachines"))
  {
    var p := ExampleSegments;
    var g := Some("rg1");
    var t := Some("Microsoft.Compute/virtualMachines");
    assert ToLower(p[3]) == "resourcegroups";
    assert ToLower(p[5]) == "providers";
    assert Scan(p, 8, g, t) == (g, t);
    assert Scan(p, 7, g, t) == (g, t);
    assert TypeAt(p, 6) == t.value;
    assert Scan(p, 6, g, None) == (g, t);
    assert Scan(p, 5, g, None) == (g, t);
    assert Scan(p, 4, None, None) == (g, t);
    assert Scan(p, 3, None, None) == (g, t);
    assert Scan(p, 2, None, None) == (g, t);
  }

  /** Parsing a URI built from separator-free segments is scanning those segments. */
  lemma ParseJoined(segs: seq<string>)
    requires |segs| >= 1
    requires forall q :: q in segs ==> '/' !in q
    ensures ParseArmUri(Join(segs, '/')) ==
      var (g, t) := Scan(segs, 1, None, None); Resource(g, t, Some(segs[|segs| - 1]))
  {
    SplitJoin(segs, '/');
  }

  /** The worked example: the URI
      "/subscriptions/s/resourceGroups/rg1/providers/Microsoft.Compute/virtualMachines/vm1"
      names group rg1, type Microsoft.Compute/virtualMachines and name vm1. */
  lemma VirtualMachineExample()
    ensures ParseArmUri(Join(ExampleSegments, '/'))
         == Resource(Some("rg1"), Some("Microsoft.Compute/virtualMachines"), Some("vm1"))
  {
    ParseJoined(ExampleSegments);
    ExampleScan();
  }
}
