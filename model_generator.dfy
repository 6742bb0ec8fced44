/** The model generator script: the node list that create_style_transfer_model
    assembles for a style name, and the file name that main derives for each
    style. A node is abstracted to its operator, name, inputs and outputs; the
    numeric attributes, the graph wrapper and serialization are not modelled. */
module ModelGenerator {

  // ---------------------------------------------------------------------------
  // Strings: Python's `in`, `str.lower` and `str.replace`
  // ---------------------------------------------------------------------------

  predicate IsPrefix(p: string, s: string) {
    |p| <= |s| && s[..|p|] == p
  }

  /** `sub in s` for strings: `sub` occurs somewhere in `s`. */
  predicate Contains(s: string, sub: string)
    decreases |s|
  {
    IsPrefix(sub, s) || (|s| > 0 && Contains(s[1..], sub))
  }

  /** A pattern cannot occur in a string that lacks its first character. */
  lemma {:induction false} NotContainedWithoutFirstChar(s: string, sub: string)
    requires |sub| > 0 && sub[0] !in s
    ensures !Contains(s, sub)
    decreases |s|
  {
    if |s| > 0 {
      assert s[0] != sub[0];
      assert sub[0] !in s[1..] by {
        forall j | 0 <= j < |s[1..]| ensures s[1..][j] != sub[0] {
          assert s[1..][j] == s[j + 1];
        }
      }
      NotContainedWithoutFirstChar(s[1..], sub);
    }
  }

  /** `sub` sits in `s` at index `i`. */
  predicate OccursAt(s: string, sub: string, i: int) {
    0 <= i && i + |sub| <= |s| && s[i..i + |sub|] == sub
  }

  /** `in` against an independent reading: `sub` occurs in `s` at some index. */
  lemma {:induction false} ContainsAtSomeIndex(s: string, sub: string)
    ensures Contains(s, sub) <==> exists i :: OccursAt(s, sub, i)
    decreases |s|
  {
    if IsPrefix(sub, s) {
      assert OccursAt(s, sub, 0);
    } else if |s| > 0 {
      ContainsAtSomeIndex(s[1..], sub);
      if exists i :: OccursAt(s, sub, i) {
        var i :| OccursAt(s, sub, i);
        assert i != 0;
        assert s[1..][i - 1..i - 1 + |sub|] == s[i..i + |sub|];
        assert OccursAt(s[1..], sub, i - 1);
      }
      if Contains(s[1..], sub) {
        var i :| OccursAt(s[1..], sub, i);
        assert s[1..][i..i + |sub|] == s[i + 1..i + 1 + |sub|];
        assert OccursAt(s, sub, i + 1);
      }
    }
  }

  predicate IsAsciiUpper(c: char) {
    'A' <= c <= 'Z'
  }

  function LowerChar(c: char): (l: char)
    ensures !IsAsciiUpper(l)
    ensures !IsAsciiUpper(c) ==> l == c
  {
    if IsAsciiUpper(c) then (c as int - 'A' as int + 'a' as int) as char else c
  }

  /** `str.lower` on ASCII letters. */
  function Lower(s: string): (r: string)
    ensures |r| == |s|
    ensures forall c :: c in r ==> !IsAsciiUpper(c)
    ensures forall i :: 0 <= i < |s| && s[i] != ' ' ==> r[i] != ' '
  {
    seq(|s|, i requires 0 <= i < |s| => LowerChar(s[i]))
  }

  /** `s.replace(pat, rep)`: scans left to right and replaces every
      non-overlapping occurrence of `pat`. */
  function ReplaceAll(s: string, pat: string, rep: string): string
    requires |pat| > 0
    decreases |s|
  {
    if |s| < |pat| then s
    else if s[..|pat|] == pat then rep + ReplaceAll(s[|pat|..], pat, rep)
    else [s[0]] + ReplaceAll(s[1..], pat, rep)
  }

  /** Every character of the result comes from the input or the replacement. */
  lemma {:induction false} ReplaceAllChars(s: string, pat: string, rep: string)
    requires |pat| > 0
    ensures forall c :: c in ReplaceAll(s, pat, rep) ==> c in s || c in rep
    decreases |s|
  {
    if |s| < |pat| {
    } else if s[..|pat|] == pat {
      ReplaceAllChars(s[|pat|..], pat, rep);
      forall c | c in s[|pat|..] ensures c in s {
        var j :| 0 <= j < |s[|pat|..]| && s[|pat|..][j] == c;
        assert s[j + |pat|] == c;
      }
    } else {
      ReplaceAllChars(s[1..], pat, rep);
      forall c | c in s[1..] ensures c in s {
        var j :| 0 <= j < |s[1..]| && s[1..][j] == c;
        assert s[j + 1] == c;
      }
    }
  }

  /** Replacing one character by one character is a pointwise map. */
  lemma {:induction false} ReplaceCharPointwise(s: string, c: char, d: char)
    ensures ReplaceAll(s, [c], [d]) == seq(|s|, i requires 0 <= i < |s| => if s[i] == c then d else s[i])
    decreases |s|
  {
    if |s| >= 1 {
      ReplaceCharPointwise(s[1..], c, d);
      assert s[..1] == [s[0]];
    }
  }

  /** A string in which character `m` of the pattern never appears is left as it is. */
  lemma {:induction false} ReplaceAllAbsent(s: string, pat: string, rep: string, m: nat)
    requires m < |pat| && pat[m] !in s
    ensures ReplaceAll(s, pat, rep) == s
    decreases |s|
  {
    if |s| >= |pat| {
      assert s[..|pat|][m] == s[m];
      assert s[0] == s[..1][0];
      assert pat[m] !in s[1..] by {
        forall j | 0 <= j < |s[1..]| ensures s[1..][j] != pat[m] {
          assert s[1..][j] == s[j + 1];
        }
      }
      ReplaceAllAbsent(s[1..], pat, rep, m);
      assert s == [s[0]] + s[1..];
    }
  }

  /** At an occurrence of the pattern the replacement is emitted and the scan
      resumes after it. */
  lemma ReplaceAllAtMatch(pat: string, rest: string, rep: string)
    requires |pat| > 0
    ensures ReplaceAll(pat + rest, pat, rep) == rep + ReplaceAll(rest, pat, rep)
  {
    var s := pat + rest;
    assert s[..|pat|] == pat && s[|pat|..] == rest;
  }

  /** When no occurrence of the pattern can start inside `a` (character `m` of
      the pattern never sits `m` places after a position of `a`), `a` is copied
      unchanged and the scan resumes at `b`. */
  lemma {:induction false} ReplaceAllSkip(a: string, b: string, pat: string, rep: string, m: nat)
    requires m < |pat| && |a| + m <= |a| + |b|
    requires forall j :: m <= j < |a| + m ==> (a + b)[j] != pat[m]
    ensures ReplaceAll(a + b, pat, rep) == a + ReplaceAll(b, pat, rep)
    decreases |a|
  {
    if |a| > 0 {
      var s := a + b;
      var t := a[1..] + b;
      if |s| >= |pat| {
        assert s[m] != pat[m];
        assert s[..|pat|] != pat by {
          assert s[..|pat|][m] == s[m];
        }
        assert s[1..] == t;
        assert ReplaceAll(s, pat, rep) == [s[0]] + ReplaceAll(t, pat, rep);
        forall j | m <= j < |a[1..]| + m ensures t[j] != pat[m] {
          assert t[j] == s[j + 1];
        }
        ReplaceAllSkip(a[1..], b, pat, rep, m);
        assert a == [s[0]] + a[1..];
      } else {
        assert ReplaceAll(s, pat, rep) == s;
        assert ReplaceAll(b, pat, rep) == b;
      }
    } else {
      assert a + b == b;
    }
  }

  /** The model file name main derives from a style name. */
  function FileName(style: string): string {
    ReplaceAll(ReplaceAll(Lower(style), " - ", "_"), " ", "_") + ".onnx"
  }

  /** Every file name ends in ".onnx" and holds neither a space nor an ASCII
      upper-case letter. */
  lemma FileNameIsWellFormed(style: string)
    ensures |FileName(style)| >= 5 && FileName(style)[|FileName(style)| - 5..] == ".onnx"
    ensures ' ' !in FileName(style)
    ensures forall c :: c in FileName(style) ==> !IsAsciiUpper(c)
  {
    var lowered := Lower(style);
    var dashless := ReplaceAll(lowered, " - ", "_");
    ReplaceAllChars(lowered, " - ", "_");
    ReplaceAllChars(dashless, " ", "_");
    ReplaceCharPointwise(dashless, ' ', '_');
  }

  // ---------------------------------------------------------------------------
  // Graph nodes
  // ---------------------------------------------------------------------------

  datatype OpType = Div | Mul | Add | Identity | Clip

  /** A graph node: operator, node name, input and output tensor names. */
  datatype Node = Node(op: OpType, name: string, inputs: seq<string>, outputs: seq<string>)

  /** The style branch of create_style_transfer_model. */
  datatype Branch = VanGoghBranch | PicassoBranch | CyberpunkBranch | MonetBranch | AnimeBranch | IdentityBranch

  /** Branch choice: the first keyword, in this order, that occurs in the name. */
  function BranchOf(styleName: string): (b: Branch)
    ensures b == IdentityBranch <==>
      !Contains(styleName, "Van Gogh") && !Contains(styleName, "Picasso") &&
      !Contains(styleName, "Cyberpunk") && !Contains(styleName, "Monet") &&
      !Contains(styleName, "Anime")
  {
    if Contains(styleName, "Van Gogh") then VanGoghBranch
    else if Contains(styleName, "Picasso") then PicassoBranch
    else if Contains(styleName, "Cyberpunk") then CyberpunkBranch
    else if Contains(styleName, "Monet") then MonetBranch
    else if Contains(styleName, "Anime") then AnimeBranch
    else IdentityBranch
  }

  const NormalizeNode := Node(Div, "normalize", ["input"], ["normalized"])
  const ClampNode := Node(Clip, "clamp", ["styled"], ["clamped"])
  const DenormalizeNode := Node(Mul, "denormalize", ["clamped"], ["output"])

  /** The nodes a branch inserts between normalization and clamping. */
  function BranchNodes(b: Branch): (ns: seq<Node>)
    ensures |ns| == if b == IdentityBranch then 1 else 2
    ensures ns[0].inputs == ["normalized"] && ns[|ns| - 1].outputs == ["styled"]
    ensures b == IdentityBranch ==> ns[0].op == Identity
    ensures b != IdentityBranch ==>
      ns[0].op == Mul && ns[1].op == Add && ns[1].inputs == ns[0].outputs &&
      ns[0].outputs != ["styled"]
  {
    match b
    case VanGoghBranch =>
      [Node(Mul, "color_enhance", ["normalized"], ["colored"]),
       Node(Add, "add_effects", ["colored"], ["styled"])]
    case PicassoBranch =>
      [Node(Mul, "contrast", ["normalized"], ["contrast"]),
       Node(Add, "add_geometric", ["contrast"], ["styled"])]
    case CyberpunkBranch =>
      [Node(Mul, "neon_scale", ["normalized"], ["neon"]),
       Node(Add, "add_glow", ["neon"], ["styled"])]
    case MonetBranch =>
      [Node(Mul, "soft_scale", ["normalized"], ["soft"]),
       Node(Add, "add_impressionist", ["soft"], ["styled"])]
    case AnimeBranch =>
      [Node(Mul, "saturate", ["normalized"], ["saturated"]),
       Node(Add, "add_anime", ["saturated"], ["styled"])]
    case IdentityBranch =>
      [Node(Identity, "identity", ["normalized"], ["styled"])]
  }

  /** Each node reads exactly one tensor and writes exactly one, and each node
      reads the tensor the node before it wrote. */
  ghost predicate IsChain(nodes: seq<Node>) {
    (forall k :: 0 <= k < |nodes| ==> |nodes[k].inputs| == 1 && |nodes[k].outputs| == 1) &&
    (forall k :: 0 < k < |nodes| ==> nodes[k].inputs == nodes[k - 1].outputs)
  }

  /** No tensor is written by two nodes. */
  ghost predicate OutputsDistinct(nodes: seq<Node>) {
    forall j, k :: 0 <= j < k < |nodes| ==> nodes[j].outputs != nodes[k].outputs
  }

  /** The node list of the graph for a style: it reads `input`, writes
      `output`, opens with normalization and closes with clamping and
      denormalization, and is five nodes long for a matched style and four for
      the identity default. */
  function StyleGraph(styleName: string): (nodes: seq<Node>)
    ensures |nodes| == if BranchOf(styleName) == IdentityBranch then 4 else 5
    ensures nodes[0] == NormalizeNode
    ensures nodes[|nodes| - 2] == ClampNode && nodes[|nodes| - 1] == DenormalizeNode
    ensures nodes[0].inputs == ["input"] && nodes[|nodes| - 1].outputs == ["output"]
  {
    [NormalizeNode] + BranchNodes(BranchOf(styleName)) + [ClampNode, DenormalizeNode]
  }

  /** Whatever the style, the graph is a linear chain in which every tensor is
      written once. */
  lemma StyleGraphIsChain(styleName: string)
    ensures IsChain(StyleGraph(styleName))
    ensures OutputsDistinct(StyleGraph(styleName))
  {
    var b := BranchOf(styleName);
    var nodes := [NormalizeNode] + BranchNodes(b) + [ClampNode, DenormalizeNode];
    assert StyleGraph(styleName) == nodes;
    if b == IdentityBranch {
      assert nodes == [NormalizeNode, BranchNodes(b)[0], ClampNode, DenormalizeNode];
    } else {
      assert nodes == [NormalizeNode, BranchNodes(b)[0], BranchNodes(b)[1], ClampNode, DenormalizeNode];
    }
  }

  /** create_style_transfer_model up to the graph wrapper: appends the nodes
      one by one along the if/elif chain. */
  method CreateStyleTransferModel(styleName: string) returns (nodes: seq<Node>)
    ensures nodes == StyleGraph(styleName)
  {
    nodes := [];
    nodes := nodes + [NormalizeNode];
    if Contains(styleName, "Van Gogh") {
      nodes := nodes + [Node(Mul, "color_enhance", ["normalized"], ["colored"])];
      nodes := nodes + [Node(Add, "add_effects", ["colored"], ["styled"])];
    } else if Contains(styleName, "Picasso") {
      nodes := nodes + [Node(Mul, "contrast", ["normalized"], ["contrast"])];
      nodes := nodes + [Node(Add, "add_geometric", ["contrast"], ["styled"])];
    } else if Contains(styleName, "Cyberpunk") {
      nodes := nodes + [Node(Mul, "neon_scale", ["normalized"], ["neon"])];
      nodes := nodes + [Node(Add, "add_glow", ["neon"], ["styled"])];
    } else if Contains(styleName, "Monet") {
      nodes := nodes + [Node(Mul, "soft_scale", ["normalized"], ["soft"])];
      nodes := nodes + [Node(Add, "add_impressionist", ["soft"], ["styled"])];
    } else if Contains(styleName, "Anime") {
      nodes := nodes + [Node(Mul, "saturate", ["normalized"], ["saturated"])];
      nodes := nodes + [Node(Add, "add_anime", ["saturated"], ["styled"])];
    } else {
      nodes := nodes + [Node(Identity, "identity", ["normalized"], ["styled"])];
    }
    nodes := nodes + [ClampNode];
    nodes := nodes + [DenormalizeNode];
  }

  // ---------------------------------------------------------------------------
  // main
  // ---------------------------------------------------------------------------

  const Styles: seq<string> := [
    "Van Gogh - Starry Night",
    "Picasso - Cubist",
    "Cyberpunk Neon",
    "Monet - Water Lilies",
    "Anime Studio Ghibli"
  ]

  /** A name that starts with a keyword and lacks the first letter of every
      earlier keyword selects that keyword's branch. */
  lemma FirstKeywordBranch(s: string)
    ensures IsPrefix("Van Gogh", s) ==> BranchOf(s) == VanGoghBranch
    ensures 'V' !in s && IsPrefix("Picasso", s) ==> BranchOf(s) == PicassoBranch
    ensures 'V' !in s && 'P' !in s && IsPrefix("Cyberpunk", s) ==> BranchOf(s) == CyberpunkBranch
    ensures 'V' !in s && 'P' !in s && 'C' !in s && IsPrefix("Monet", s) ==> BranchOf(s) == MonetBranch
    ensures 'V' !in s && 'P' !in s && 'C' !in s && 'M' !in s && IsPrefix("Anime", s) ==>
      BranchOf(s) == AnimeBranch
  {
    if 'V' !in s { NotContainedWithoutFirstChar(s, "Van Gogh"); }
    if 'P' !in s { NotContainedWithoutFirstChar(s, "Picasso"); }
    if 'C' !in s { NotContainedWithoutFirstChar(s, "Cyberpunk"); }
    if 'M' !in s { NotContainedWithoutFirstChar(s, "Monet"); }
  }

  lemma VanGoghStyleBranch(s: string)
    requires s == "Van Gogh - Starry Night"
    ensures BranchOf(s) == VanGoghBranch
  {
    FirstKeywordBranch(s);
    assert IsPrefix("Van Gogh", s);
  }

  lemma PicassoStyleBranch(s: string)
    requires s == "Picasso - Cubist"
    ensures BranchOf(s) == PicassoBranch
  {
    FirstKeywordBranch(s);
    assert 'V' !in s && IsPrefix("Picasso", s);
  }

  lemma CyberpunkStyleBranch(s: string)
    requires s == "Cyberpunk Neon"
    ensures BranchOf(s) == CyberpunkBranch
  {
    FirstKeywordBranch(s);
    assert 'V' !in s && 'P' !in s && IsPrefix("Cyberpunk", s);
  }

  lemma MonetStyleBranch(s: string)
    requires s == "Monet - Water Lilies"
    ensures BranchOf(s) == MonetBranch
  {
    FirstKeywordBranch(s);
    assert 'V' !in s && 'P' !in s && 'C' !in s && IsPrefix("Monet", s);
  }

  lemma AnimeStyleBranch(s: string)
    requires s == "Anime Studio Ghibli"
    ensures BranchOf(s) == AnimeBranch
  {
    FirstKeywordBranch(s);
    assert 'V' !in s && 'P' !in s && 'C' !in s && 'M' !in s && IsPrefix("Anime", s);
  }

  /** The branch each style of main is meant to select, in the same order; it
      is also the branch of each keyword, in the order the keywords are tested. */
  const MainBranches: seq<Branch> := [VanGoghBranch, PicassoBranch, CyberpunkBranch, MonetBranch, AnimeBranch]

  /** The keywords create_style_transfer_model tests, in the order it tests them. */
  const Keywords: seq<string> := ["Van Gogh", "Picasso", "Cyberpunk", "Monet", "Anime"]

  /** First match wins: a name selects the branch of keyword k exactly when it
      contains keyword k and none of the keywords tested before it. */
  lemma BranchIsFirstKeyword(s: string, k: nat)
    requires k < |Keywords|
    ensures BranchOf(s) == MainBranches[k] <==>
      Contains(s, Keywords[k]) && forall j :: 0 <= j < k ==> !Contains(s, Keywords[j])
  {
    assert Keywords[0] == "Van Gogh" && Keywords[1] == "Picasso" && Keywords[2] == "Cyberpunk";
    assert Keywords[3] == "Monet" && Keywords[4] == "Anime";
    if k == 0 {
    } else if k == 1 {
    } else if k == 2 {
    } else if k == 3 {
    } else {
    }
  }

  /** Each of the five styles main generates selects its own, non-default branch. */
  lemma MainStyleSelectsItsBranch(k: nat)
    requires k < |Styles|
    ensures BranchOf(Styles[k]) == MainBranches[k] && MainBranches[k] != IdentityBranch
  {
    if k == 0 {
      VanGoghStyleBranch(Styles[0]);
    } else if k == 1 {
      PicassoStyleBranch(Styles[1]);
    } else if k == 2 {
      CyberpunkStyleBranch(Styles[2]);
    } else if k == 3 {
      MonetStyleBranch(Styles[3]);
    } else {
      AnimeStyleBranch(Styles[4]);
    }
  }

  /** Every graph main builds is a five-node chain: none of its styles falls
      through to the identity default. */
  lemma MainGraphsAreStyled(k: nat)
    requires k < |Styles|
    ensures |StyleGraph(Styles[k])| == 5
    ensures StyleGraph(Styles[k])[1].op == Mul && StyleGraph(Styles[k])[2].op == Add
  {
    MainStyleSelectsItsBranch(k);
  }

  lemma LowerStarryNight(s: string)
    requires s == "Van Gogh - Starry Night"
    ensures Lower(s) == "van gogh - starry night"
  {
  }

  /** A string with a single occurrence of the pattern has exactly that
      occurrence replaced, provided character `m` of the pattern appears
      nowhere else. */
  lemma ReplaceAllOnce(a: string, c: string, pat: string, rep: string, m: nat)
    requires m < |pat| && pat[m] !in a && pat[m] !in c
    requires forall j :: 0 <= j < m ==> pat[j] != pat[m]
    ensures ReplaceAll(a + pat + c, pat, rep) == a + rep + c
  {
    var s := a + (pat + c);
    assert a + pat + c == s;
    forall j | m <= j < |a| + m ensures s[j] != pat[m] {
      if j < |a| {
        assert s[j] == a[j];
      } else {
        assert s[j] == pat[j - |a|];
      }
    }
    ReplaceAllSkip(a, pat + c, pat, rep, m);
    ReplaceAllAtMatch(pat, c, rep);
    ReplaceAllAbsent(c, pat, rep, m);
  }

  lemma DashPassStarryNight(s: string)
    requires s == "van gogh - starry night"
    ensures ReplaceAll(s, " - ", "_") == "van gogh_starry night"
  {
    assert s == "van gogh" + " - " + "starry night";
    assert "van gogh" + "_" + "starry night" == "van gogh_starry night";
    ReplaceAllOnce("van gogh", "starry night", " - ", "_", 1);
  }

  lemma SpacePassStarryNight(s: string)
    requires s == "van gogh_starry night"
    ensures ReplaceAll(s, " ", "_") == "van_gogh_starry_night"
  {
    ReplaceCharPointwise(s, ' ', '_');
  }

  lemma OnnxSuffixStarryNight(s: string)
    requires s == "van_gogh_starry_night"
    ensures s + ".onnx" == "van_gogh_starry_night.onnx"
  {
  }

  /** The file name of the first style: " - " is replaced before " ", so the
      dash disappears with its spaces. */
  lemma StarryNightFileName(style: string)
    requires style == "Van Gogh - Starry Night"
    ensures FileName(style) == "van_gogh_starry_night.onnx"
  {
    var lowered := Lower(style);
    var dashless := ReplaceAll(lowered, " - ", "_");
    var spaceless := ReplaceAll(dashless, " ", "_");
    assert FileName(style) == spaceless + ".onnx";
    LowerStarryNight(style);
    DashPassStarryNight(lowered);
    SpacePassStarryNight(dashless);
    OnnxSuffixStarryNight(spaceless);
  }

  /** One iteration of main's loop: derive the file name, build the nodes. */
  method GenerateModel(style: string) returns (fileName: string, nodes: seq<Node>)
    ensures fileName == FileName(style)
    ensures nodes == StyleGraph(style)
  {
    fileName := FileName(style);
    nodes := CreateStyleTransferModel(style);
  }

  /** main's loop, without the directory creation, file writing and printing:
      derives each style's file name and builds its node list. main runs it
      on `Styles`. */
  method GenerateModels(styles: seq<string>) returns (fileNames: seq<string>, graphs: seq<seq<Node>>)
    ensures |fileNames| == |styles| && |graphs| == |styles|
    ensures forall k :: 0 <= k < |styles| ==> fileNames[k] == FileName(styles[k])
    ensures forall k :: 0 <= k < |styles| ==> graphs[k] == StyleGraph(styles[k])
  {
    fileNames, graphs := [], [];
    var k := 0;
    while k < |styles|
      invariant 0 <= k <= |styles|
      invariant |fileNames| == k && |graphs| == k
      invariant forall j :: 0 <= j < k ==> fileNames[j] == FileName(styles[j])
      invariant forall j :: 0 <= j < k ==> graphs[j] == StyleGraph(styles[j])
    {
      var fileName, nodes := GenerateModel(styles[k]);
      fileNames := fileNames + [fileName];
      graphs := graphs + [nodes];
      k := k + 1;
    }
  }
}
