/** The comparison behind k8s.diff, cloudkite/modules/k8s/diff.go: the fields in which two nested
    objects differ, and a line diff of their texts. */
module Drift {

  // ---------------------------------------------------------------- drifted fields

  /** Decoded JSON. DeepEqual is equality of these values. */
  datatype Value =
    | Null
    | Bool(b: bool)
    | Num(n: int)
    | Str(s: string)
    | List(items: seq<Value>)
    | Obj(fields: map<string, Value>)

  predicate Ignored(key: string) {
    key == "managedFields" || key == "resourceVersion" || key == "generation"
  }

  function Extend(prefix: string, key: string): string {
    if prefix == "" then key else prefix + "." + key
  }

  /** The text reported for a way down through `keys`. */
  function PathText(prefix: string, keys: seq<string>): string
    decreases |keys|
  {
    if keys == [] then prefix else PathText(Extend(prefix, keys[0]), keys[1..])
  }

  /** The field is missing on one side or differs. */
  predicate FieldDiffers(a: Value, b: Value, key: string)
    requires a.Obj? && b.Obj?
  {
    if key in a.fields && key in b.fields then a.fields[key] != b.fields[key]
    else key in a.fields || key in b.fields
  }

  /** Two objects that differ in a field that is compared. */
  ghost predicate DifferInside(a: Value, b: Value) {
    && a.Obj? && b.Obj?
    && exists key ::
      && key != "managedFields" && key != "resourceVersion" && key != "generation"
      && FieldDiffers(a, b, key)
  }

  /** Following `keys` through both values, never by an ignored one, ends at a place that is missing
      on one side, or differs and not in a field further inside. */
  ghost predicate LeafAt(a: Value, b: Value, keys: seq<string>)
    decreases |keys|
  {
    if keys == [] then a != b && !DifferInside(a, b)
    else
      && a.Obj? && b.Obj?
      && keys[0] != "managedFields" && keys[0] != "resourceVersion" && keys[0] != "generation"
      && if keys[0] in a.fields && keys[0] in b.fields then LeafAt(a.fields[keys[0]], b.fields[keys[0]], keys[1..])
         else (keys[0] in a.fields || keys[0] in b.fields) && |keys| == 1
  }

  /** The texts of such ways: the names in turn, with dots between them. */
  lemma {:induction false} PathTextIs(keys: seq<string>, key: string)
    ensures PathText("", []) == "" && PathText("", [key]) == key
    ensures keys != [] && keys[0] != "" ==> PathText("", keys + [key]) == PathText("", keys) + "." + key
  {
    assert [key][1..] == [];
    if keys != [] && keys[0] != "" {
      assert (keys + [key])[1..] == keys[1..] + [key];
      PathTextBelow(keys[0], keys[1..], key);
    }
  }

  lemma {:induction false} PathTextBelow(prefix: string, keys: seq<string>, key: string)
    requires prefix != ""
    ensures PathText(prefix, keys + [key]) == PathText(prefix, keys) + "." + key
    decreases |keys|
  {
    if keys == [] {
      assert keys + [key] == [key] && [key][1..] == [];
    } else {
      assert (keys + [key])[1..] == keys[1..] + [key];
      PathTextBelow(Extend(prefix, keys[0]), keys[1..], key);
    }
  }

  /** `path` is the text of a way to a leaf; the way that is empty only counts for values that are
      not both objects. */
  ghost predicate IsLeaf(prefix: string, a: Value, b: Value, path: string) {
    exists keys ::
      && LeafAt(a, b, keys) && PathText(prefix, keys) == path
      && (keys != [] || (prefix != "" && !(a.Obj? && b.Obj?)))
  }

  /** And it begins with this field. */
  ghost predicate LeafUnder(prefix: string, a: Value, b: Value, key: string, path: string) {
    exists keys :: keys != [] && keys[0] == key && LeafAt(a, b, keys) && PathText(prefix, keys) == path
  }

  /** Any leaf, the values themselves included. */
  ghost predicate LeafWithin(prefix: string, a: Value, b: Value, path: string) {
    exists keys :: LeafAt(a, b, keys) && PathText(prefix, keys) == path
  }

  lemma LeafBelow(prefix: string, a: Value, b: Value, key: string, path: string)
    requires a.Obj? && b.Obj? && !Ignored(key) && key in a.fields && key in b.fields
    ensures LeafUnder(prefix, a, b, key, path)
       <==> LeafWithin(Extend(prefix, key), a.fields[key], b.fields[key], path)
  {
    if LeafUnder(prefix, a, b, key, path) {
      var keys :| keys != [] && keys[0] == key && LeafAt(a, b, keys) && PathText(prefix, keys) == path;
      assert LeafAt(a.fields[key], b.fields[key], keys[1..]);
    }
    if LeafWithin(Extend(prefix, key), a.fields[key], b.fields[key], path) {
      var keys :| LeafAt(a.fields[key], b.fields[key], keys) && PathText(Extend(prefix, key), keys) == path;
      var all := [key] + keys;
      assert all[1..] == keys;
      assert LeafAt(a, b, all) && PathText(prefix, all) == path;
    }
  }

  lemma LeafMissing(prefix: string, a: Value, b: Value, key: string, path: string)
    requires a.Obj? && b.Obj? && !Ignored(key) && (key in a.fields <==> key !in b.fields)
    ensures LeafUnder(prefix, a, b, key, path) <==> path == Extend(prefix, key)
  {
    assert [key][1..] == [];
    assert LeafAt(a, b, [key]) && PathText(prefix, [key]) == Extend(prefix, key);
    if LeafUnder(prefix, a, b, key, path) {
      var keys :| keys != [] && keys[0] == key && LeafAt(a, b, keys) && PathText(prefix, keys) == path;
      assert keys == [key];
    }
  }

  lemma {:induction false} NoLeafInEqual(a: Value, keys: seq<string>)
    ensures !LeafAt(a, a, keys)
    decreases |keys|
  {
    if keys != [] && a.Obj? && keys[0] in a.fields {
      NoLeafInEqual(a.fields[keys[0]], keys[1..]);
    }
  }

  /** findDriftedFields: the paths it reports are exactly those of the leaves, where the two values
      differ and cannot be compared further. For two objects there are none iff they agree in every
      field that is compared. */
  method FindDriftedFields(prefix: string, a: Value, b: Value) returns (drifted: seq<string>)
    ensures forall path :: path in drifted <==> IsLeaf(prefix, a, b, path)
    ensures a.Obj? && b.Obj? ==> (drifted == [] <==> !DifferInside(a, b))
    ensures !(a.Obj? && b.Obj?) ==> drifted == if a != b && prefix != "" then [prefix] else []
    decreases a, 2
  {
    if a.Obj? && b.Obj? {
      drifted := DriftOfKeys(prefix, a, b);
      forall path ensures path in drifted <==> IsLeaf(prefix, a, b, path) {
        LeafHasKey(prefix, a, b, path);
      }
      return;
    }
    drifted := [];
    if a != b && prefix != "" {
      drifted := [prefix];
    }
    forall path ensures path in drifted <==> IsLeaf(prefix, a, b, path) {
      assert path == prefix && a != b && prefix != "" ==> LeafAt(a, b, []) && PathText(prefix, []) == path;
      if keys :| LeafAt(a, b, keys) && PathText(prefix, keys) == path {
        assert keys == [];
      }
    }
  }

  lemma LeafHasKey(prefix: string, a: Value, b: Value, path: string)
    requires a.Obj? && b.Obj?
    ensures IsLeaf(prefix, a, b, path) <==> exists key :: key in ComparedKeys(a, b) && LeafUnder(prefix, a, b, key, path)
  {
    if IsLeaf(prefix, a, b, path) {
      var keys :| LeafAt(a, b, keys) && PathText(prefix, keys) == path && keys != [];
      assert keys[0] in ComparedKeys(a, b) && LeafUnder(prefix, a, b, keys[0], path);
    }
  }

  function ComparedKeys(a: Value, b: Value): set<string>
    requires a.Obj? && b.Obj?
  {
    (set k | k in a.fields && !Ignored(k)) + (set k | k in b.fields && !Ignored(k))
  }

  /** The branch for two objects; the keys are walked in whatever order the map gives them. */
  method DriftOfKeys(prefix: string, a: Value, b: Value) returns (drifted: seq<string>)
    requires a.Obj? && b.Obj?
    ensures forall path :: path in drifted <==> exists key :: key in ComparedKeys(a, b) && LeafUnder(prefix, a, b, key, path)
    ensures drifted == [] <==> !DifferInside(a, b)
    decreases a, 1
  {
    drifted := [];
    var todo := ComparedKeys(a, b);
    while todo != {}
      invariant todo <= ComparedKeys(a, b)
      invariant forall path ::
        path in drifted <==> exists key :: key in ComparedKeys(a, b) - todo && LeafUnder(prefix, a, b, key, path)
      invariant drifted == [] <==> forall k :: k in ComparedKeys(a, b) - todo ==> !FieldDiffers(a, b, k)
      decreases todo
    {
      var k :| k in todo;
      var found := DriftOfKey(prefix, a, b, k);
      drifted := drifted + found;
      todo := todo - {k};
    }
    forall k | !Ignored(k) && FieldDiffers(a, b, k) ensures k in ComparedKeys(a, b) {
    }
  }

  /** The body of the loop over the keys. */
  method DriftOfKey(prefix: string, a: Value, b: Value, k: string) returns (found: seq<string>)
    requires a.Obj? && b.Obj? && !Ignored(k) && (k in a.fields || k in b.fields)
    ensures forall path :: path in found <==> LeafUnder(prefix, a, b, k, path)
    ensures found != [] <==> FieldDiffers(a, b, k)
    decreases a, 0
  {
    var path := Extend(prefix, k);
    if k !in a.fields || k !in b.fields {
      forall p ensures LeafUnder(prefix, a, b, k, p) <==> p == path {
        LeafMissing(prefix, a, b, k, p);
      }
      return [path];
    }
    found := [];
    if a.fields[k] != b.fields[k] {
      found := FindDriftedFields(path, a.fields[k], b.fields[k]);
      ghost var inside := found;
      if |found| == 0 {
        found := [path];
      }
      forall p ensures p in found <==> LeafWithin(path, a.fields[k], b.fields[k], p) {
        DriftedBelow(path, a.fields[k], b.fields[k], inside, p);
      }
    } else {
      forall keys ensures !LeafAt(a.fields[k], b.fields[k], keys) {
        NoLeafInEqual(a.fields[k], keys);
      }
    }
    forall p ensures p in found <==> LeafUnder(prefix, a, b, k, p) {
      LeafBelow(prefix, a, b, k, p);
    }
  }

  /** What is reported for a field that both sides have: the leaves inside it, or else itself. */
  lemma DriftedBelow(prefix: string, a: Value, b: Value, inside: seq<string>, path: string)
    requires a != b && forall p :: p in inside <==> IsLeaf(prefix, a, b, p)
    requires a.Obj? && b.Obj? ==> (inside == [] <==> !DifferInside(a, b))
    requires !(a.Obj? && b.Obj?) ==> inside == if prefix != "" then [prefix] else []
    ensures path in (if inside == [] then [prefix] else inside) <==> LeafWithin(prefix, a, b, path)
  {
    assert LeafAt(a, b, []) <==> !DifferInside(a, b);
    assert PathText(prefix, []) == prefix;
    if LeafWithin(prefix, a, b, path) {
      var keys :| LeafAt(a, b, keys) && PathText(prefix, keys) == path;
      if keys != [] {
        assert IsLeaf(prefix, a, b, path);
      }
    }
  }

  // ---------------------------------------------------------------- lines

  /** strings.Split(s, "\n"). */
  function SplitLines(s: string): (lines: seq<string>)
    ensures |lines| > 0 && forall i :: 0 <= i < |lines| ==> '\n' !in lines[i]
  {
    if s == "" then [""]
    else
      var rest := SplitLines(s[1..]);
      if s[0] == '\n' then [""] + rest else [[s[0]] + rest[0]] + rest[1..]
  }

  /** The lines of a text, a final newline ending the last one. */
  function LinesOf(s: string): (lines: seq<string>)
    ensures forall i :: 0 <= i < |lines| ==> '\n' !in lines[i]
  {
    var lines := SplitLines(s);
    if lines[|lines| - 1] == "" then lines[..|lines| - 1] else lines
  }

  lemma {:induction false} SplitFirstLine(line: string, rest: string)
    requires '\n' !in line
    ensures SplitLines(line + "\n" + rest) == [line] + SplitLines(rest)
  {
    var s := line + "\n" + rest;
    if line == "" {
      assert s[1..] == rest;
    } else {
      assert s[1..] == line[1..] + "\n" + rest;
      SplitFirstLine(line[1..], rest);
      assert [line[0]] + line[1..] == line;
    }
  }

  /** The lines of a text one by one: each ends at its newline, and what is left after the last
      newline is a line unless it is empty. */
  lemma LinesAre(line: string, rest: string)
    requires '\n' !in line
    ensures LinesOf(line) == if line == "" then [] else [line]
    ensures LinesOf(line + "\n" + rest) == [line] + LinesOf(rest)
  {
    OneLine(line);
    SplitFirstLine(line, rest);
    var lines := SplitLines(rest);
    assert ([line] + lines)[..|lines|] == [line] + lines[..|lines| - 1];
  }

  lemma {:induction false} OneLine(line: string)
    requires '\n' !in line
    ensures SplitLines(line) == [line]
  {
    if line != "" {
      OneLine(line[1..]);
      assert [line[0]] + line[1..] == line;
    }
  }

  datatype Edit = Keep(text: string) | Insert(text: string) | Delete(text: string)

  function Tagged(e: Edit): string {
    match e
    case Keep(text) => "  " + text
    case Insert(text) => "+ " + text
    case Delete(text) => "- " + text
  }

  const HEADER := "--- live\n" + "+++ applied\n"

  function Render(edits: seq<Edit>): string {
    if edits == [] then "" else Tagged(edits[0]) + "\n" + Render(edits[1..])
  }

  function TaggedLines(edits: seq<Edit>): seq<string> {
    seq(|edits|, i requires 0 <= i < |edits| => Tagged(edits[i]))
  }

  /** The body of a diff, read back from its text: the lines after the two of the header. */
  function BodyLines(diff: string): seq<string> {
    var lines := LinesOf(diff);
    if |lines| >= 2 then lines[2..] else []
  }

  /** A diff's lines without those that carry `tag`, and without their tags. */
  function Dropping(tag: string, body: seq<string>): seq<string> {
    if body == [] then []
    else (if tag <= body[0] || |body[0]| < 2 then [] else [body[0][2..]]) + Dropping(tag, body[1..])
  }

  function OldSide(diff: string): seq<string> {
    Dropping("+ ", BodyLines(diff))
  }

  function NewSide(diff: string): seq<string> {
    Dropping("- ", BodyLines(diff))
  }

  /** The text an edit contributes to a side. */
  function Kept(e: Edit, old_: bool): seq<string> {
    if (if old_ then e.Insert? else e.Delete?) then [] else [e.text]
  }

  function KeptTexts(edits: seq<Edit>, old_: bool): seq<string> {
    if edits == [] then [] else Kept(edits[0], old_) + KeptTexts(edits[1..], old_)
  }

  lemma {:induction false} KeptSnoc(edits: seq<Edit>, e: Edit, old_: bool)
    ensures KeptTexts(edits + [e], old_) == KeptTexts(edits, old_) + Kept(e, old_)
  {
    if edits == [] {
      assert edits + [e] == [e];
    } else {
      assert (edits + [e])[1..] == edits[1..] + [e];
      KeptSnoc(edits[1..], e, old_);
    }
  }

  /** One more edit takes one more line of a side, unless the edit is not on that side. */
  lemma SideSnoc(edits: seq<Edit>, e: Edit, old_: bool, lines: seq<string>, i: nat)
    requires i <= |lines| && KeptTexts(edits, old_) == lines[..i]
    requires Kept(e, old_) == [] || (i < |lines| && e.text == lines[i])
    ensures KeptTexts(edits + [e], old_) == lines[..if Kept(e, old_) == [] then i else i + 1]
  {
    KeptSnoc(edits, e, old_);
    if Kept(e, old_) != [] {
      assert lines[..i + 1] == lines[..i] + [lines[i]];
    }
  }

  lemma {:induction false} RenderSnoc(edits: seq<Edit>, e: Edit)
    ensures Render(edits + [e]) == Render(edits) + Tagged(e) + "\n"
  {
    if edits == [] {
      assert edits + [e] == [e] && Render([e]) == Tagged(e) + "\n" + "";
    } else {
      assert (edits + [e])[1..] == edits[1..] + [e];
      RenderSnoc(edits[1..], e);
    }
  }

  predicate SingleLines(edits: seq<Edit>) {
    forall i :: 0 <= i < |edits| ==> '\n' !in edits[i].text
  }

  lemma {:induction false} SplitRendered(edits: seq<Edit>)
    requires SingleLines(edits)
    ensures SplitLines(Render(edits)) == TaggedLines(edits) + [""]
  {
    if edits == [] {
      assert TaggedLines(edits) == [];
    } else {
      SplitFirstLine(Tagged(edits[0]), Render(edits[1..]));
      SplitRendered(edits[1..]);
      TaggedFirst(edits);
      var first, rest := [Tagged(edits[0])], TaggedLines(edits[1..]);
      assert first + (rest + [""]) == (first + rest) + [""];
    }
  }

  lemma TaggedFirst(edits: seq<Edit>)
    requires edits != []
    ensures TaggedLines(edits) == [Tagged(edits[0])] + TaggedLines(edits[1..])
  {
  }

  lemma SplitWithHeader(body: string)
    ensures SplitLines(HEADER + body) == ["--- live", "+++ applied"] + SplitLines(body)
  {
    assert HEADER + body == "--- live" + "\n" + ("+++ applied" + "\n" + body);
    SplitFirstLine("--- live", "+++ applied" + "\n" + body);
    SplitFirstLine("+++ applied", body);
  }

  lemma ReadBack(edits: seq<Edit>)
    requires SingleLines(edits)
    ensures BodyLines(HEADER + Render(edits)) == TaggedLines(edits)
  {
    SplitWithHeader(Render(edits));
    SplitRendered(edits);
    var front := ["--- live", "+++ applied"] + TaggedLines(edits);
    assert SplitLines(HEADER + Render(edits)) == front + [""];
    assert front[2..] == TaggedLines(edits);
  }

  lemma {:induction false} DroppingIs(edits: seq<Edit>)
    ensures Dropping("+ ", TaggedLines(edits)) == KeptTexts(edits, true)
    ensures Dropping("- ", TaggedLines(edits)) == KeptTexts(edits, false)
  {
    if edits != [] {
      var lines := TaggedLines(edits);
      assert lines[1..] == TaggedLines(edits[1..]);
      TagIs(edits[0]);
      DroppingIs(edits[1..]);
    }
  }

  lemma TagIs(e: Edit)
    ensures |Tagged(e)| >= 2 && Tagged(e)[2..] == e.text
    ensures "+ " <= Tagged(e) <==> e.Insert?
    ensures "- " <= Tagged(e) <==> e.Delete?
    ensures "  " <= Tagged(e) <==> e.Keep?
  {
    assert Tagged(e)[0] == match e case Keep(_) => ' ' case Insert(_) => '+' case Delete(_) => '-';
    assert "+ "[0] == '+' && "- "[0] == '-' && "  "[0] == ' ';
  }

  /** formatUnifiedDiff terminates on all inputs. Its output restores both of them: without the
      added lines it is the old text, without the removed lines the new one. Each line is what the
      next old and the next new line call for, and so what both texts begin with is kept. */
  method FormatUnifiedDiff(oldStr: string, newStr: string) returns (diff: string)
    ensures "--- live\n" + "+++ applied\n" <= diff
    ensures OldSide(diff) == LinesOf(oldStr)
    ensures NewSide(diff) == LinesOf(newStr)
    ensures FollowsLines(BodyLines(diff), LinesOf(oldStr), LinesOf(newStr))
    ensures KeepsPrefix(BodyLines(diff), LinesOf(oldStr), LinesOf(newStr))
  {
    var body, edits := DiffBody(LinesOf(oldStr), LinesOf(newStr));
    ReadBack(edits);
    DroppingIs(edits);
    LinesFollow(edits, LinesOf(oldStr), LinesOf(newStr));
    PrefixLines(edits, LinesOf(oldStr), LinesOf(newStr));
    diff := HEADER + body;
  }

  /** After k lines of the body, with i old lines and j new ones used up: the next two lines are one
      kept line if they are equal, the new one is added if it comes in no old line any more, and
      else the old one is removed. */
  ghost predicate FollowsLines(body: seq<string>, oldLines: seq<string>, newLines: seq<string>) {
    forall k :: 0 <= k < |body| ==>
      var i, j := |Dropping("+ ", body[..k])|, |Dropping("- ", body[..k])|;
      && i <= |oldLines| && j <= |newLines|
      && if i < |oldLines| && j < |newLines| && oldLines[i] == newLines[j] then body[k] == "  " + oldLines[i]
         else if j < |newLines| && newLines[j] !in oldLines[i..] then body[k] == "+ " + newLines[j]
         else i < |oldLines| && body[k] == "- " + oldLines[i]
  }

  /** What both texts begin with is kept, and of equal texts everything and nothing else. */
  ghost predicate KeepsPrefix(body: seq<string>, oldLines: seq<string>, newLines: seq<string>) {
    && (forall n :: 0 <= n <= |oldLines| && n <= |newLines| && oldLines[..n] == newLines[..n] ==>
          n <= |body| && forall k :: 0 <= k < n ==> body[k] == "  " + oldLines[k])
    && (oldLines == newLines ==> |body| == |oldLines|)
  }

  /** The edit that the loop has to make at old line `i` and new line `j`. */
  ghost predicate IsChoice(e: Edit, oldLines: seq<string>, newLines: seq<string>, i: nat, j: nat) {
    && i <= |oldLines| && j <= |newLines|
    && if i < |oldLines| && j < |newLines| && oldLines[i] == newLines[j] then e == Keep(oldLines[i])
       else if j < |newLines| && newLines[j] !in oldLines[i..] then e == Insert(newLines[j])
       else i < |oldLines| && e == Delete(oldLines[i])
  }

  ghost predicate ChosenAt(edits: seq<Edit>, oldLines: seq<string>, newLines: seq<string>, k: nat) {
    k < |edits| ==>
      IsChoice(edits[k], oldLines, newLines, |KeptTexts(edits[..k], true)|, |KeptTexts(edits[..k], false)|)
  }

  /** Every edit is the choice at the lines the edits before it lead to. */
  ghost predicate AllChosen(edits: seq<Edit>, oldLines: seq<string>, newLines: seq<string>) {
    forall k :: 0 <= k < |edits| ==> ChosenAt(edits, oldLines, newLines, k)
  }

  lemma ChosenSnoc(edits: seq<Edit>, e: Edit, oldLines: seq<string>, newLines: seq<string>)
    requires AllChosen(edits, oldLines, newLines)
    requires IsChoice(e, oldLines, newLines, |KeptTexts(edits, true)|, |KeptTexts(edits, false)|)
    ensures AllChosen(edits + [e], oldLines, newLines)
  {
    var all := edits + [e];
    forall k | 0 <= k < |all| ensures ChosenAt(all, oldLines, newLines, k) {
      assert all[..k] == edits[..k];
      assert edits[..|edits|] == edits;
      assert k < |edits| ==> ChosenAt(edits, oldLines, newLines, k);
    }
  }

  lemma LinesFollow(edits: seq<Edit>, oldLines: seq<string>, newLines: seq<string>)
    requires AllChosen(edits, oldLines, newLines)
    ensures FollowsLines(TaggedLines(edits), oldLines, newLines)
  {
    var body := TaggedLines(edits);
    forall k | 0 <= k < |body|
      ensures ChosenAt(edits, oldLines, newLines, k) && |Dropping("+ ", body[..k])| == |KeptTexts(edits[..k], true)|
      ensures |Dropping("- ", body[..k])| == |KeptTexts(edits[..k], false)| && body[k] == Tagged(edits[k])
    {
      assert body[..k] == TaggedLines(edits[..k]);
      DroppingIs(edits[..k]);
    }
  }

  /** As long as both texts go on alike, lines are kept. */
  lemma {:induction false} PrefixKept(edits: seq<Edit>, oldLines: seq<string>, newLines: seq<string>, n: nat, k: nat)
    requires AllChosen(edits, oldLines, newLines) && KeptTexts(edits, true) == oldLines
    requires k <= n <= |oldLines| && n <= |newLines| && oldLines[..n] == newLines[..n]
    ensures k <= |edits| && |KeptTexts(edits[..k], true)| == k == |KeptTexts(edits[..k], false)|
    ensures forall m :: 0 <= m < k ==> edits[m] == Keep(oldLines[m])
  {
    if k > 0 {
      PrefixKept(edits, oldLines, newLines, n, k - 1);
      assert oldLines[k - 1] == oldLines[..n][k - 1] == newLines[..n][k - 1];
      assert edits[..|edits|] == edits;
      assert k <= |edits|;
      assert ChosenAt(edits, oldLines, newLines, k - 1);
      KeptMore(edits, k - 1);
    }
  }

  lemma KeptMore(edits: seq<Edit>, k: nat)
    requires k < |edits|
    ensures KeptTexts(edits[..k + 1], true) == KeptTexts(edits[..k], true) + Kept(edits[k], true)
    ensures KeptTexts(edits[..k + 1], false) == KeptTexts(edits[..k], false) + Kept(edits[k], false)
  {
    assert edits[..k + 1] == edits[..k] + [edits[k]];
    KeptSnoc(edits[..k], edits[k], true);
    KeptSnoc(edits[..k], edits[k], false);
  }

  lemma PrefixLines(edits: seq<Edit>, oldLines: seq<string>, newLines: seq<string>)
    requires AllChosen(edits, oldLines, newLines)
    requires KeptTexts(edits, true) == oldLines && KeptTexts(edits, false) == newLines
    ensures KeepsPrefix(TaggedLines(edits), oldLines, newLines)
  {
    forall n | 0 <= n <= |oldLines| && n <= |newLines| && oldLines[..n] == newLines[..n]
      ensures n <= |edits| && forall k :: 0 <= k < n ==> edits[k] == Keep(oldLines[k])
    {
      PrefixKept(edits, oldLines, newLines, n, n);
    }
    if oldLines == newLines {
      PrefixKept(edits, oldLines, newLines, |oldLines|, |oldLines|);
      assert ChosenAt(edits, oldLines, newLines, |oldLines|);
    }
  }

  /** The loop: the body of the diff, and the edits it is made of. */
  method DiffBody(oldLines: seq<string>, newLines: seq<string>) returns (body: string, ghost edits: seq<Edit>)
    requires forall k :: 0 <= k < |oldLines| ==> '\n' !in oldLines[k]
    requires forall k :: 0 <= k < |newLines| ==> '\n' !in newLines[k]
    ensures body == Render(edits) && SingleLines(edits)
    ensures KeptTexts(edits, true) == oldLines && KeptTexts(edits, false) == newLines
    ensures AllChosen(edits, oldLines, newLines)
  {
    body, edits := "", [];
    var i, j := 0, 0;
    while i < |oldLines| || j < |newLines|
      invariant 0 <= i <= |oldLines| && 0 <= j <= |newLines|
      invariant body == Render(edits) && SingleLines(edits)
      invariant KeptTexts(edits, true) == oldLines[..i] && KeptTexts(edits, false) == newLines[..j]
      invariant AllChosen(edits, oldLines, newLines)
      decreases |oldLines| - i + |newLines| - j
    {
      var e := NextEdit(oldLines, newLines, i, j);
      RenderSnoc(edits, e);
      SideSnoc(edits, e, true, oldLines, i);
      SideSnoc(edits, e, false, newLines, j);
      ChosenSnoc(edits, e, oldLines, newLines);
      edits := edits + [e];
      body := body + Tagged(e) + "\n";
      i, j := if e.Insert? then i else i + 1, if e.Delete? then j else j + 1;
    }
    assert oldLines[..i] == oldLines && newLines[..j] == newLines;
  }

  /** The choice the loop makes at old line `i` and new line `j`. */
  method NextEdit(oldLines: seq<string>, newLines: seq<string>, i: nat, j: nat) returns (e: Edit)
    requires i <= |oldLines| && j <= |newLines| && (i < |oldLines| || j < |newLines|)
    ensures e.Keep? <==> i < |oldLines| && j < |newLines| && oldLines[i] == newLines[j]
    ensures e.Insert? <==> j < |newLines| && newLines[j] !in oldLines[i..]
    ensures !e.Insert? ==> i < |oldLines| && e.text == oldLines[i]
    ensures !e.Delete? ==> j < |newLines| && e.text == newLines[j]
  {
    if i < |oldLines| && j < |newLines| && oldLines[i] == newLines[j] {
      assert oldLines[i..][0] == newLines[j];
      return Keep(oldLines[i]);
    }
    if j < |newLines| {
      var later := ContainsFrom(oldLines, i, newLines[j]);
      if i >= |oldLines| || !later {
        return Insert(newLines[j]);
      }
    }
    e := Delete(oldLines[i]);
  }

  method ContainsFrom(lines: seq<string>, start: nat, val: string) returns (found: bool)
    ensures found <==> start <= |lines| && val in lines[start..]
  {
    var i := start;
    while i < |lines|
      invariant start <= i
      invariant start <= |lines| ==> i <= |lines| && val !in lines[start..i]
    {
      if lines[i] == val {
        assert lines[start..][i - start] == val;
        return true;
      }
      i := i + 1;
    }
    if start <= |lines| {
      assert lines[start..] == lines[start..|lines|];
    }
    found := false;
  }
}
