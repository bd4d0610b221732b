/** The command-line tokenizer and its printer, libkite/exec/parse.go. Strings are sequences of
    runes, as `Split` sees them after `[]rune(cmdStr)`. */
module CommandLine {
  import opened Common

  datatype Error = UnclosedSingleQuote | UnclosedDoubleQuote | TrailingEscape

  datatype Result<T> = Ok(value: T) | Err(error: Error)

  /** unicode.IsSpace: the White_Space property. */
  predicate IsSpace(r: char) {
    || '\t' <= r <= '\r' || r == ' ' || r == '\U{85}' || r == '\U{A0}' || r == '\U{1680}'
    || '\U{2000}' <= r <= '\U{200A}' || r == '\U{2028}' || r == '\U{2029}' || r == '\U{202F}'
    || r == '\U{205F}' || r == '\U{3000}'
  }

  /** The characters a backslash escapes inside double quotes (section 2.2.3 of the POSIX Shell
      Command Language); a newline there is a line continuation. */
  predicate DoubleEscapable(r: char) {
    r == '"' || r == '\\' || r == '$' || r == '`'
  }

  // ---------------------------------------------------------------- a grammar of command lines

  /** One item between double quotes: a character, an escaped character, a backslash kept
      before an ordinary character, or a line continuation. */
  datatype Item = Plain(c: char) | Escaped(c: char) | Kept(c: char) | Joined {
    predicate Valid() {
      match this
      case Plain(c) => c != '"' && c != '\\'
      case Escaped(c) => DoubleEscapable(c)
      case Kept(c) => !DoubleEscapable(c) && c != '\n'
      case Joined => true
    }

    function Text(): string {
      match this
      case Plain(c) => [c]
      case Escaped(c) => ['\\', c]
      case Kept(c) => ['\\', c]
      case Joined => "\\\n"
    }

    function Meaning(): string {
      match this
      case Plain(c) => [c]
      case Escaped(c) => [c]
      case Kept(c) => ['\\', c]
      case Joined => ""
    }
  }

  datatype Piece =
    | Blank(c: char)
    | Bare(c: char)
    | Escape(c: char)
    | Continuation
    | Single(s: string)
    | Double(items: seq<Item>)
  {
    predicate Valid() {
      match this
      case Blank(c) => IsSpace(c)
      case Bare(c) => !IsSpace(c) && c != '\'' && c != '"' && c != '\\'
      case Escape(c) => c != '\n'
      case Continuation => true
      case Single(s) => '\'' !in s
      case Double(items) => ItemsValid(items)
    }

    function Text(): string {
      match this
      case Blank(c) => [c]
      case Bare(c) => [c]
      case Escape(c) => ['\\', c]
      case Continuation => "\\\n"
      case Single(s) => "'" + s + "'"
      case Double(items) => "\"" + ItemsText(items) + "\""
    }
  }

  /** How a line may stop: properly, inside a quote, or right after a backslash. */
  datatype Ending =
    | Complete
    | OpenSingle(s: string)
    | OpenDouble(items: seq<Item>)
    | Dangling
    | DanglingInDouble(items: seq<Item>)
  {
    predicate Valid() {
      match this
      case Complete => true
      case OpenSingle(s) => '\'' !in s
      case OpenDouble(items) => ItemsValid(items)
      case Dangling => true
      case DanglingInDouble(items) => ItemsValid(items)
    }

    function Text(): string {
      match this
      case Complete => ""
      case OpenSingle(s) => "'" + s
      case OpenDouble(items) => "\"" + ItemsText(items)
      case Dangling => "\\"
      case DanglingInDouble(items) => "\"" + ItemsText(items) + "\\"
    }
  }

  predicate ItemsValid(items: seq<Item>) {
    forall i :: 0 <= i < |items| ==> items[i].Valid()
  }

  function ItemsText(items: seq<Item>): string {
    if items == [] then "" else items[0].Text() + ItemsText(items[1..])
  }

  function ItemsMeaning(items: seq<Item>): string {
    if items == [] then "" else items[0].Meaning() + ItemsMeaning(items[1..])
  }

  predicate PiecesValid(ps: seq<Piece>) {
    forall i :: 0 <= i < |ps| ==> ps[i].Valid()
  }

  function Text(ps: seq<Piece>): string {
    if ps == [] then "" else ps[0].Text() + Text(ps[1..])
  }

  /** The word a piece completes, if it completes one. */
  function Finished(p: Piece, word: Option<string>): seq<string> {
    if p.Blank? && word.Some? then [word.value] else []
  }

  /** The word under way after a piece. */
  function Continued(p: Piece, word: Option<string>): Option<string> {
    match p
    case Blank(_) => None
    case Bare(c) => Some(word.GetOr("") + [c])
    case Escape(c) => Some(word.GetOr("") + [c])
    case Continuation => word
    case Single(s) => Some(word.GetOr("") + s)
    case Double(items) => Some(word.GetOr("") + ItemsMeaning(items))
  }

  /** The words a line of pieces denotes; `word` is the word under way, if any. */
  function Words(ps: seq<Piece>, word: Option<string>): seq<string> {
    if ps == [] then (if word.Some? then [word.value] else [])
    else Finished(ps[0], word) + Words(ps[1..], Continued(ps[0], word))
  }

  /** The verdict the grammar gives to a line. */
  function Denotes(ps: seq<Piece>, ending: Ending): Result<seq<string>> {
    match ending
    case Complete => Ok(Words(ps, None))
    case OpenSingle(_) => Err(UnclosedSingleQuote)
    case OpenDouble(_) => Err(UnclosedDoubleQuote)
    case Dangling => Err(TrailingEscape)
    case DanglingInDouble(_) => Err(TrailingEscape)
  }

  // ---------------------------------------------------------------- the scanner as a function

  datatype Mode = Outside | InSingle | InDouble

  function Prepend(ts: seq<string>, r: Result<seq<string>>): Result<seq<string>> {
    match r case Ok(us) => Ok(ts + us) case Err(e) => Err(e)
  }

  /** What the loop of `Split` still returns, started on `rs` in the given state. */
  function Scan(rs: string, mode: Mode, current: string, inToken: bool): Result<seq<string>>
    decreases |rs|
  {
    if rs == [] then
      match mode
      case InSingle => Err(UnclosedSingleQuote)
      case InDouble => Err(UnclosedDoubleQuote)
      case Outside => Ok(if inToken then [current] else [])
    else
      var r, rest := rs[0], rs[1..];
      match mode
      case InSingle =>
        if r == '\'' then Scan(rest, Outside, current, true) else Scan(rest, InSingle, current + [r], true)
      case InDouble =>
        if r == '"' then Scan(rest, Outside, current, true)
        else if r == '\\' then
          if rest == [] then Err(TrailingEscape)
          else if DoubleEscapable(rest[0]) then Scan(rest[1..], InDouble, current + [rest[0]], true)
          else if rest[0] == '\n' then Scan(rest[1..], InDouble, current, true)
          else Scan(rest, InDouble, current + ['\\'], true)
        else Scan(rest, InDouble, current + [r], true)
      case Outside =>
        if r == '\'' then Scan(rest, InSingle, current, true)
        else if r == '"' then Scan(rest, InDouble, current, true)
        else if r == '\\' then
          if rest == [] then Err(TrailingEscape)
          else if rest[0] == '\n' then Scan(rest[1..], Outside, current, inToken)
          else Scan(rest[1..], Outside, current + [rest[0]], true)
        else if IsSpace(r) then
          if inToken then Prepend([current], Scan(rest, Outside, "", false))
          else Scan(rest, Outside, current, false)
        else Scan(rest, Outside, current + [r], true)
  }

  function SplitOf(s: string): Result<seq<string>> {
    Scan(s, Outside, "", false)
  }

  /** The scanner between quotes, with `word` under way. */
  function ScanFrom(s: string, word: Option<string>): Result<seq<string>> {
    Scan(s, Outside, word.GetOr(""), word.Some?)
  }

  /** Split, as the source runs it: one loop over the runes and three flags. */
  method Split(runes: string) returns (r: Result<seq<string>>)
    ensures r == SplitOf(runes)
  {
    var tokens: seq<string>, current := [], "";
    var inToken, inSingle, inDouble := false, false, false;
    var i := 0;
    PrependNothing(SplitOf(runes));
    assert runes[0..] == runes;
    while i < |runes|
      invariant 0 <= i <= |runes| && !(inSingle && inDouble)
      invariant SplitOf(runes) == Prepend(tokens, Scan(runes[i..], ModeOf(inSingle, inDouble), current, inToken))
    {
      var c := runes[i];
      assert runes[i..][1..] == runes[i + 1..];
      if inSingle {
        if c == '\'' {
          inSingle := false;
        } else {
          current := current + [c];
        }
        inToken := true;
      } else if inDouble {
        if c == '"' {
          inDouble := false;
        } else if c == '\\' {
          if i + 1 < |runes| {
            var next := runes[i + 1];
            assert runes[i + 1..][1..] == runes[i + 2..];
            if next == '"' || next == '\\' || next == '$' || next == '`' {
              current := current + [next];
              i := i + 1;
            } else if next == '\n' {
              i := i + 1;
            } else {
              current := current + ['\\'];
            }
          } else {
            return Err(TrailingEscape);
          }
        } else {
          current := current + [c];
        }
        inToken := true;
      } else if c == '\'' {
        inSingle, inToken := true, true;
      } else if c == '"' {
        inDouble, inToken := true, true;
      } else if c == '\\' {
        if i + 1 == |runes| {
          return Err(TrailingEscape);
        }
        assert runes[i + 1..][1..] == runes[i + 2..];
        if runes[i + 1] != '\n' {
          current := current + [runes[i + 1]];
          inToken := true;
        }
        i := i + 1;
      } else if IsSpace(c) {
        if inToken {
          var flushed := tokens + [current];
          PrependAssoc(tokens, [current], Scan(runes[i + 1..], Outside, "", false));
          tokens, current, inToken := flushed, "", false;
        }
      } else {
        current := current + [c];
        inToken := true;
      }
      i := i + 1;
    }
    if inSingle {
      return Err(UnclosedSingleQuote);
    }
    if inDouble {
      return Err(UnclosedDoubleQuote);
    }
    assert tokens + [] == tokens;
    if inToken {
      tokens := tokens + [current];
    }
    r := Ok(tokens);
  }

  function ModeOf(inSingle: bool, inDouble: bool): Mode {
    if inSingle then InSingle else if inDouble then InDouble else Outside
  }

  lemma PrependAssoc(a: seq<string>, b: seq<string>, r: Result<seq<string>>)
    ensures Prepend(a, Prepend(b, r)) == Prepend(a + b, r)
  {
    if r.Ok? {
      assert a + (b + r.value) == a + b + r.value;
    }
  }

  lemma PrependNothing(r: Result<seq<string>>)
    ensures Prepend([], r) == r
  {
    if r.Ok? {
      assert [] + r.value == r.value;
    }
  }

  // ---------------------------------------------------------------- Split against the grammar

  lemma {:induction false} ScanSingle(s: string, rest: string, current: string)
    requires '\'' !in s
    ensures Scan(s + rest, InSingle, current, true) == Scan(rest, InSingle, current + s, true)
  {
    if s == "" {
      assert s + rest == rest && current + s == current;
    } else {
      assert (s + rest)[1..] == s[1..] + rest;
      ScanSingle(s[1..], rest, current + [s[0]]);
      assert current + [s[0]] + s[1..] == current + s;
    }
  }

  lemma Cons(r: char, rest: string)
    ensures [r] + rest != [] && ([r] + rest)[0] == r && ([r] + rest)[1..] == rest
  {
  }

  lemma Assoc<T>(a: seq<T>, b: seq<T>, c: seq<T>)
    ensures a + b + c == a + (b + c)
  {
  }

  lemma TakeOneMore<T>(s: seq<T>, i: nat)
    requires i < |s|
    ensures s[..i + 1] == s[..i] + [s[i]]
  {
  }

  /** One step of the scanner from the rune at the front. */
  lemma ScanStep(r: char, rest: string, mode: Mode, current: string, inToken: bool)
    ensures mode.InDouble? && r != '"' && r != '\\' ==>
      Scan([r] + rest, mode, current, inToken) == Scan(rest, InDouble, current + [r], true)
    ensures mode.Outside? && r == '"' ==> Scan([r] + rest, mode, current, inToken) == Scan(rest, InDouble, current, true)
    ensures mode.Outside? && r == '\'' ==> Scan([r] + rest, mode, current, inToken) == Scan(rest, InSingle, current, true)
    ensures mode.InDouble? && r == '"' ==> Scan([r] + rest, mode, current, inToken) == Scan(rest, Outside, current, true)
    ensures mode.InSingle? && r == '\'' ==> Scan([r] + rest, mode, current, inToken) == Scan(rest, Outside, current, true)
  {
    Cons(r, rest);
  }

  /** One step from a backslash and the rune after it. */
  lemma ScanEscape(c: char, rest: string, mode: Mode, current: string, inToken: bool)
    ensures mode.Outside? && c != '\n' ==>
      Scan(['\\'] + ([c] + rest), mode, current, inToken) == Scan(rest, Outside, current + [c], true)
    ensures mode.Outside? && c == '\n' ==>
      Scan(['\\'] + ([c] + rest), mode, current, inToken) == Scan(rest, Outside, current, inToken)
    ensures mode.InDouble? && DoubleEscapable(c) ==>
      Scan(['\\'] + ([c] + rest), mode, current, inToken) == Scan(rest, InDouble, current + [c], true)
    ensures mode.InDouble? && c == '\n' ==>
      Scan(['\\'] + ([c] + rest), mode, current, inToken) == Scan(rest, InDouble, current, true)
    ensures mode.InDouble? && !DoubleEscapable(c) && c != '\n' ==>
      Scan(['\\'] + ([c] + rest), mode, current, inToken) == Scan([c] + rest, InDouble, current + ['\\'], true)
  {
    Cons(c, rest);
    Cons('\\', [c] + rest);
  }

  lemma ScanItem(item: Item, rest: string, current: string)
    requires item.Valid()
    ensures Scan(item.Text() + rest, InDouble, current, true) == Scan(rest, InDouble, current + item.Meaning(), true)
  {
    match item
    case Plain(c) => ScanStep(c, rest, InDouble, current, true);
    case Escaped(c) =>
      Assoc(['\\'], [c], rest);
      ScanEscape(c, rest, InDouble, current, true);
    case Kept(c) =>
      Assoc(['\\'], [c], rest);
      ScanEscape(c, rest, InDouble, current, true);
      ScanStep(c, rest, InDouble, current + ['\\'], true);
      Assoc(current, ['\\'], [c]);
      assert ['\\'] + [c] == item.Text() == item.Meaning();
    case Joined =>
      Assoc(['\\'], ['\n'], rest);
      ScanEscape('\n', rest, InDouble, current, true);
      assert current + "" == current;
  }

  lemma {:induction false} ScanItems(items: seq<Item>, rest: string, current: string)
    requires ItemsValid(items)
    ensures Scan(ItemsText(items) + rest, InDouble, current, true)
         == Scan(rest, InDouble, current + ItemsMeaning(items), true)
  {
    if items == [] {
      assert "" + rest == rest && current + "" == current;
    } else {
      var item, tail := items[0], items[1..];
      Assoc(item.Text(), ItemsText(tail), rest);
      ScanItem(item, ItemsText(tail) + rest, current);
      ScanItems(tail, rest, current + item.Meaning());
      Assoc(current, item.Meaning(), ItemsMeaning(tail));
    }
  }

  lemma ScanSingleQuoted(s: string, rest: string, word: Option<string>)
    requires '\'' !in s
    ensures ScanFrom(Single(s).Text() + rest, word) == Scan(rest, Outside, word.GetOr("") + s, true)
  {
    Assoc("'" + s, "'", rest);
    Assoc("'", s, "'" + rest);
    ScanStep('\'', s + ("'" + rest), Outside, word.GetOr(""), word.Some?);
    ScanSingle(s, "'" + rest, word.GetOr(""));
    ScanStep('\'', rest, InSingle, word.GetOr("") + s, true);
  }

  lemma ScanDoubleQuoted(items: seq<Item>, rest: string, word: Option<string>)
    requires ItemsValid(items)
    ensures ScanFrom(Double(items).Text() + rest, word) == Scan(rest, Outside, word.GetOr("") + ItemsMeaning(items), true)
  {
    var text := ItemsText(items);
    Assoc("\"" + text, "\"", rest);
    Assoc("\"", text, "\"" + rest);
    ScanStep('"', text + ("\"" + rest), Outside, word.GetOr(""), word.Some?);
    ScanItems(items, "\"" + rest, word.GetOr(""));
    ScanStep('"', rest, InDouble, word.GetOr("") + ItemsMeaning(items), true);
  }

  /** One piece does to the scanner what it means. */
  lemma ScanPiece(p: Piece, rest: string, word: Option<string>)
    requires p.Valid()
    ensures ScanFrom(p.Text() + rest, word) == Prepend(Finished(p, word), ScanFrom(rest, Continued(p, word)))
  {
    PrependNothing(ScanFrom(rest, Continued(p, word)));
    match p
    case Blank(c) => Cons(c, rest);
    case Bare(c) => Cons(c, rest);
    case Escape(c) =>
      Assoc(['\\'], [c], rest);
      ScanEscape(c, rest, Outside, word.GetOr(""), word.Some?);
    case Continuation =>
      Assoc(['\\'], ['\n'], rest);
      ScanEscape('\n', rest, Outside, word.GetOr(""), word.Some?);
    case Single(s) => ScanSingleQuoted(s, rest, word);
    case Double(items) => ScanDoubleQuoted(items, rest, word);
  }

  lemma ScanEnding(ending: Ending, word: Option<string>)
    requires ending.Valid()
    ensures ScanFrom(ending.Text(), word) == if ending.Complete? then Ok(Words([], word)) else Denotes([], ending)
  {
    match ending
    case Complete =>
    case OpenSingle(s) =>
      Cons('\'', s);
      assert s + "" == s;
      ScanSingle(s, "", word.GetOr(""));
    case OpenDouble(items) =>
      Cons('"', ItemsText(items));
      assert ItemsText(items) + "" == ItemsText(items);
      ScanItems(items, "", word.GetOr(""));
    case Dangling =>
    case DanglingInDouble(items) =>
      assert ending.Text() == ['"'] + (ItemsText(items) + "\\");
      Cons('"', ItemsText(items) + "\\");
      ScanItems(items, "\\", word.GetOr(""));
  }

  lemma {:induction false} ScanPieces(ps: seq<Piece>, ending: Ending, word: Option<string>)
    requires PiecesValid(ps) && ending.Valid()
    ensures ScanFrom(Text(ps) + ending.Text(), word)
         == if ending.Complete? then Ok(Words(ps, word)) else Denotes(ps, ending)
  {
    if ps == [] {
      assert Text(ps) + ending.Text() == ending.Text();
      ScanEnding(ending, word);
    } else {
      var rest := Text(ps[1..]) + ending.Text();
      Assoc(ps[0].Text(), Text(ps[1..]), ending.Text());
      ScanPiece(ps[0], rest, word);
      ScanPieces(ps[1..], ending, Continued(ps[0], word));
    }
  }

  /** Every line built from the grammar gets the verdict the grammar gives it. */
  lemma SplitFollowsGrammar(ps: seq<Piece>, ending: Ending)
    requires PiecesValid(ps) && ending.Valid()
    ensures SplitOf(Text(ps) + ending.Text()) == Denotes(ps, ending)
  {
    ScanPieces(ps, ending, None);
  }

  /** And every string whatever is such a line, so the grammar decides all of them. */
  lemma {:induction false} EveryStringParses(s: string) returns (ps: seq<Piece>, ending: Ending)
    ensures PiecesValid(ps) && ending.Valid() && Text(ps) + ending.Text() == s
    decreases |s|
  {
    if s == "" {
      return [], Complete;
    }
    var p, k, stop := FirstPiece(s);
    if k == 0 {
      return [], stop;
    }
    ps, ending := EveryStringParses(s[k..]);
    FrontPiece(p, ps, ending);
    assert s == s[..k] + s[k..];
    ps := [p] + ps;
  }

  lemma FrontPiece(p: Piece, ps: seq<Piece>, ending: Ending)
    ensures Text([p] + ps) + ending.Text() == p.Text() + (Text(ps) + ending.Text())
  {
    assert ([p] + ps)[1..] == ps;
    Assoc(p.Text(), Text(ps), ending.Text());
  }

  /** The piece a string starts with, `k` runes long, or the ending it consists of. */
  lemma FirstPiece(s: string) returns (p: Piece, k: nat, stop: Ending)
    requires s != ""
    ensures k <= |s|
    ensures if k == 0 then stop.Valid() && stop.Text() == s else p.Valid() && p.Text() == s[..k]
  {
    p, k, stop := Continuation, 0, Complete;
    var r, rest := s[0], s[1..];
    assert s == [r] + rest;
    if r == '\'' {
      var close := Find(rest, '\'');
      if close == |rest| {
        stop := OpenSingle(rest);
      } else {
        p, k := Single(rest[..close]), close + 2;
      }
    } else if r == '"' {
      var items, left := ItemsOf(rest);
      if left == "" {
        stop := OpenDouble(items);
      } else if left[0] != '"' {
        stop := DanglingInDouble(items);
      } else {
        p, k := Double(items), |s| - |left| + 1;
      }
    } else if r != '\\' {
      p, k := if IsSpace(r) then Blank(r) else Bare(r), 1;
    } else if rest == "" {
      stop := Dangling;
    } else {
      p, k := if rest[0] == '\n' then Continuation else Escape(rest[0]), 2;
    }
  }

  lemma {:induction false} Find(s: string, c: char) returns (k: nat)
    ensures k <= |s| && c !in s[..k] && (k < |s| ==> s[k] == c)
  {
    k := 0;
    while k < |s| && s[k] != c
      invariant k <= |s| && c !in s[..k]
    {
      k := k + 1;
    }
  }

  /** The longest run of items: what is left is empty, starts with the closing quote, or is a
      lone backslash. */
  lemma {:induction false} ItemsOf(s: string) returns (items: seq<Item>, stop: string)
    ensures ItemsValid(items) && s == ItemsText(items) + stop
    ensures stop == "" || stop[0] == '"' || stop == "\\"
    decreases |s|
  {
    if s == "" || s[0] == '"' || s == "\\" {
      return [], s;
    }
    var item :=
      if s[0] != '\\' then Plain(s[0])
      else if DoubleEscapable(s[1]) then Escaped(s[1])
      else if s[1] == '\n' then Joined
      else Kept(s[1]);
    assert item.Text() == s[..|item.Text()|];
    items, stop := ItemsOf(s[|item.Text()|..]);
    items := [item] + items;
  }

  /** Split succeeds exactly on the texts of complete piece lists, and returns their words. */
  lemma SplitSucceedsIff(s: string, tokens: seq<string>)
    ensures SplitOf(s) == Ok(tokens)
       <==> exists ps :: PiecesValid(ps) && Text(ps) == s && Words(ps, None) == tokens
  {
    var ps, ending := EveryStringParses(s);
    SplitFollowsGrammar(ps, ending);
    if SplitOf(s) == Ok(tokens) {
      assert Text(ps) == s;
    }
    forall qs | PiecesValid(qs) && Text(qs) == s && Words(qs, None) == tokens ensures SplitOf(s) == Ok(tokens) {
      SplitFollowsGrammar(qs, Complete);
      assert Text(qs) + Complete.Text() == s;
    }
  }

  // ---------------------------------------------------------------- single characters

  /** What a backslash does: between double quotes it goes before quotes, backslashes, dollar signs
      and backticks, stays before other characters, and joins lines; outside it always goes. */
  lemma BackslashMeans(c: char)
    ensures SplitOf("\"" + ['\\', c] + "\"")
         == Ok([if c in {'"', '\\', '$', '`'} then [c] else if c == '\n' then "" else ['\\', c]])
    ensures SplitOf(['\\', c]) == Ok(if c == '\n' then [] else [[c]])
  {
    var item := if c in {'"', '\\', '$', '`'} then Escaped(c) else if c == '\n' then Joined else Kept(c);
    assert item.Valid();
    OneItem(item);
    assert item.Text() == ['\\', c];
    var p := if c == '\n' then Continuation else Escape(c);
    assert p.Valid() && p.Text() == ['\\', c];
    OnePiece(p);
    assert c != '\n' ==> "" + [c] == [c];
  }

  /** Exactly these characters separate words, and so are none on their own. */
  lemma SeparatorIs(c: char)
    ensures SplitOf([c]) == Ok([])
       <==> c in {'\t', '\n', '\U{0B}', '\U{0C}', '\r', ' ', '\U{85}', '\U{A0}', '\U{1680}', '\U{2028}', '\U{2029}',
                  '\U{202F}', '\U{205F}', '\U{3000}'} || '\U{2000}' <= c <= '\U{200A}'
  {
    if c == '\'' || c == '"' {
      ErrorsAre("");
      assert "'" + "" == "'" && "\"" + "" == "\"";
    } else if c != '\\' {
      OnePiece(if IsSpace(c) then Blank(c) else Bare(c));
    }
  }

  lemma OneItem(item: Item)
    requires item.Valid()
    ensures SplitOf("\"" + item.Text() + "\"") == Ok([item.Meaning()])
  {
    assert ItemsText([item]) == item.Text() + "" == item.Text();
    assert ItemsMeaning([item]) == item.Meaning() + "" == item.Meaning();
    OnePiece(Double([item]));
    assert "" + item.Meaning() == item.Meaning();
  }

  lemma OnePiece(p: Piece)
    requires p.Valid()
    ensures SplitOf(p.Text()) == Ok(if Continued(p, None).Some? then [Continued(p, None).value] else [])
  {
    SplitFollowsGrammar([p], Complete);
    assert [p][1..] == [];
    assert Text([p]) == p.Text() + "" == p.Text();
    assert Text([p]) + Complete.Text() == p.Text();
    assert Words([p], None) == [] + Words([], Continued(p, None)) == Words([], Continued(p, None));
    assert Words([], Continued(p, None)) == if Continued(p, None).Some? then [Continued(p, None).value] else [];
  }

  /** The errors: each quote that stays open has its own, and a last backslash another. */
  lemma ErrorsAre(s: string)
    requires '\'' !in s && '"' !in s && '\\' !in s
    ensures SplitOf("'" + s) == Err(UnclosedSingleQuote) && SplitOf("\"" + s) == Err(UnclosedDoubleQuote)
    ensures SplitOf("\\") == Err(TrailingEscape) && SplitOf("\"" + s + "\\") == Err(TrailingEscape)
  {
    var items := seq(|s|, i requires 0 <= i < |s| => Plain(s[i]));
    PlainText(s);
    forall ending: Ending | ending.Valid() ensures SplitOf(ending.Text()) == Denotes([], ending) {
      SplitFollowsGrammar([], ending);
      assert Text([]) + ending.Text() == ending.Text();
    }
    assert OpenSingle(s).Valid() && OpenDouble(items).Valid() && Dangling.Valid() && DanglingInDouble(items).Valid();
  }

  lemma {:induction false} PlainText(s: string)
    ensures ItemsText(seq(|s|, i requires 0 <= i < |s| => Plain(s[i]))) == s
  {
    if s != "" {
      var items := seq(|s|, i requires 0 <= i < |s| => Plain(s[i]));
      assert items[1..] == seq(|s[1..]|, i requires 0 <= i < |s[1..]| => Plain(s[1..][i]));
      PlainText(s[1..]);
    }
  }

  // ---------------------------------------------------------------- concatenation

  lemma {:induction false} ScanConcat(a: string, w: char, b: string, mode: Mode, current: string, inToken: bool)
    requires IsSpace(w) && (inToken || current == "")
    requires Scan(a, mode, current, inToken).Ok?
    requires mode != Outside ==> inToken
    ensures Scan(a + [w] + b, mode, current, inToken) == Prepend(Scan(a, mode, current, inToken).value, SplitOf(b))
    decreases |a|
  {
    var all := a + [w] + b;
    if a == "" {
      assert all[1..] == b;
      PrependNothing(SplitOf(b));
    } else {
      assert all[1..] == a[1..] + [w] + b;
      if |a| > 1 {
        assert all[1..][1..] == a[1..][1..] + [w] + b;
      }
      var r, rest := a[0], a[1..];
      if mode == InSingle {
        if r == '\'' { ScanConcat(rest, w, b, Outside, current, true); }
        else { ScanConcat(rest, w, b, InSingle, current + [r], true); }
      } else if mode == InDouble {
        if r == '"' { ScanConcat(rest, w, b, Outside, current, true); }
        else if r == '\\' {
          if DoubleEscapable(rest[0]) { ScanConcat(rest[1..], w, b, InDouble, current + [rest[0]], true); }
          else if rest[0] == '\n' { ScanConcat(rest[1..], w, b, InDouble, current, true); }
          else { ScanConcat(rest, w, b, InDouble, current + ['\\'], true); }
        } else { ScanConcat(rest, w, b, InDouble, current + [r], true); }
      } else if r == '\'' { ScanConcat(rest, w, b, InSingle, current, true); }
      else if r == '"' { ScanConcat(rest, w, b, InDouble, current, true); }
      else if r == '\\' {
        if rest[0] == '\n' { ScanConcat(rest[1..], w, b, Outside, current, inToken); }
        else { ScanConcat(rest[1..], w, b, Outside, current + [rest[0]], true); }
      } else if IsSpace(r) {
        if inToken {
          ScanConcat(rest, w, b, Outside, "", false);
          PrependAssoc([current], Scan(rest, Outside, "", false).value, SplitOf(b));
        } else { ScanConcat(rest, w, b, Outside, current, false); }
      } else { ScanConcat(rest, w, b, Outside, current + [r], true); }
    }
  }

  /** Splitting distributes over whitespace, errors of the second part included. */
  lemma SplitConcat(a: string, w: char, b: string)
    requires IsSpace(w) && SplitOf(a).Ok?
    ensures SplitOf(a + [w] + b) == Prepend(SplitOf(a).value, SplitOf(b))
  {
    ScanConcat(a, w, b, Outside, "", false);
  }

  // ---------------------------------------------------------------- Quote and Join

  predicate NeedsQuote(r: char) {
    IsSpace(r) || r in {'"', '\'', '\\', '$', '`', ';', '&', '|', '<', '>', '*', '?', '~'}
  }

  /** The item that stands for `r` in the output of Quote. */
  function QuotedItem(r: char): Item {
    if DoubleEscapable(r) then Escaped(r) else Plain(r)
  }

  function QuotedItems(s: string): seq<Item> {
    seq(|s|, i requires 0 <= i < |s| => QuotedItem(s[i]))
  }

  /** Quote's result as a list of pieces. */
  function QuotePieces(s: string): seq<Piece> {
    if s != "" && forall i :: 0 <= i < |s| ==> !NeedsQuote(s[i]) then
      seq(|s|, i requires 0 <= i < |s| => Bare(s[i]))
    else [Double(QuotedItems(s))]
  }

  /** `s` with a backslash before each quote, backslash, dollar sign and backtick. */
  ghost function Backslashed(s: string): string {
    if s == "" then ""
    else (if s[0] in {'"', '\\', '$', '`'} then ['\\', s[0]] else [s[0]]) + Backslashed(s[1..])
  }

  lemma {:induction false} QuotedText(s: string)
    ensures ItemsText(QuotedItems(s)) == Backslashed(s)
  {
    if s != "" {
      assert QuotedItems(s)[1..] == QuotedItems(s[1..]);
      QuotedText(s[1..]);
    }
  }

  /** Quote leaves a word alone unless it is empty or has a character that means something to a
      shell, and else puts it between quotes; either way the output is a text of the grammar. */
  method Quote(s: string) returns (q: string)
    ensures q == Text(QuotePieces(s))
    ensures q == if s != "" && forall c :: c in s ==>
                    !IsSpace(c) && c !in {'"', '\'', '\\', '$', '`', ';', '&', '|', '<', '>', '*', '?', '~'}
                 then s else "\"" + Backslashed(s) + "\""
  {
    if s == "" {
      assert ItemsText(QuotedItems("")) == "";
      assert Text([Double(QuotedItems(""))]) == "\"\"";
      return "\"\"";
    }
    var needsQuote := false;
    for i := 0 to |s|
      invariant !needsQuote && forall k :: 0 <= k < i ==> !NeedsQuote(s[k])
    {
      if NeedsQuote(s[i]) {
        needsQuote := true;
        break;
      }
    }
    assert needsQuote <==> exists c :: c in s && NeedsQuote(c);
    if !needsQuote {
      BareText(s);
      return s;
    }
    q := "\"";
    for i := 0 to |s|
      invariant q == "\"" + ItemsText(QuotedItems(s[..i]))
    {
      QuotedItemsSnoc(s, i);
      Assoc("\"", ItemsText(QuotedItems(s[..i])), QuotedItem(s[i]).Text());
      Assoc(q, "\\", [s[i]]);
      if s[i] == '"' || s[i] == '\\' || s[i] == '$' || s[i] == '`' {
        q := q + "\\";
      }
      q := q + [s[i]];
    }
    q := q + "\"";
    assert s[..|s|] == s;
    QuotedText(s);
    assert exists i :: 0 <= i < |s| && NeedsQuote(s[i]);
    assert Text([Double(QuotedItems(s))]) == Double(QuotedItems(s)).Text() + Text([]);
  }

  lemma {:induction false} BareText(s: string)
    ensures Text(seq(|s|, i requires 0 <= i < |s| => Bare(s[i]))) == s
  {
    if s != "" {
      var ps := seq(|s|, i requires 0 <= i < |s| => Bare(s[i]));
      assert ps[1..] == seq(|s[1..]|, i requires 0 <= i < |s[1..]| => Bare(s[1..][i]));
      BareText(s[1..]);
    }
  }

  lemma {:induction false} ItemsTextSnoc(items: seq<Item>, item: Item)
    ensures ItemsText(items + [item]) == ItemsText(items) + item.Text()
    ensures ItemsMeaning(items + [item]) == ItemsMeaning(items) + item.Meaning()
  {
    if items == [] {
      assert items + [item] == [item];
      assert ItemsText([item]) == item.Text() + "";
      assert ItemsMeaning([item]) == item.Meaning() + "";
    } else {
      assert (items + [item])[1..] == items[1..] + [item];
      ItemsTextSnoc(items[1..], item);
      assert items[0].Text() + (ItemsText(items[1..]) + item.Text()) == ItemsText(items) + item.Text();
      assert items[0].Meaning() + (ItemsMeaning(items[1..]) + item.Meaning()) == ItemsMeaning(items) + item.Meaning();
    }
  }

  /** What the loop of Quote writes for one more rune. */
  lemma QuotedItemsSnoc(s: string, i: nat)
    requires i < |s|
    ensures ItemsText(QuotedItems(s[..i + 1])) == ItemsText(QuotedItems(s[..i])) + QuotedItem(s[i]).Text()
  {
    assert QuotedItems(s[..i + 1]) == QuotedItems(s[..i]) + [QuotedItem(s[i])];
    ItemsTextSnoc(QuotedItems(s[..i]), QuotedItem(s[i]));
  }

  lemma {:induction false} QuotedMeaning(s: string)
    ensures ItemsMeaning(QuotedItems(s)) == s
  {
    if s != "" {
      assert QuotedItems(s)[1..] == QuotedItems(s[1..]);
      QuotedMeaning(s[1..]);
    }
  }

  lemma {:induction false} BareWords(s: string, word: string)
    ensures Words(seq(|s|, i requires 0 <= i < |s| => Bare(s[i])), Some(word)) == [word + s]
  {
    if s == "" {
      assert word + s == word;
    } else {
      var ps := seq(|s|, i requires 0 <= i < |s| => Bare(s[i]));
      assert ps[1..] == seq(|s[1..]|, i requires 0 <= i < |s[1..]| => Bare(s[1..][i]));
      BareWords(s[1..], word + [s[0]]);
      assert word + [s[0]] + s[1..] == word + s;
    }
  }

  lemma BareMeans(s: string)
    requires s != ""
    ensures Words(seq(|s|, i requires 0 <= i < |s| => Bare(s[i])), None) == [s]
  {
    var ps := seq(|s|, i requires 0 <= i < |s| => Bare(s[i]));
    assert ps[1..] == seq(|s[1..]|, i requires 0 <= i < |s[1..]| => Bare(s[1..][i]));
    BareWords(s[1..], "" + [s[0]]);
    assert "" + [s[0]] + s[1..] == s;
    assert Words(ps, None) == [] + [s] == [s];
  }

  lemma QuotedMeans(s: string)
    ensures Words([Double(QuotedItems(s))], None) == [s]
  {
    QuotedMeaning(s);
    assert [Double(QuotedItems(s))][1..] == [] && "" + s == s;
    assert Words([Double(QuotedItems(s))], None) == [] + [s] == [s];
  }

  /** Splitting a quoted string gives back that string as the only token. */
  lemma SplitQuote(s: string)
    ensures SplitOf(Text(QuotePieces(s))) == Ok([s])
  {
    var ps := QuotePieces(s);
    if s != "" && forall i :: 0 <= i < |s| ==> !NeedsQuote(s[i]) {
      BareMeans(s);
    } else {
      QuotedMeans(s);
    }
    SplitFollowsGrammar(ps, Complete);
    assert Text(ps) + Complete.Text() == Text(ps);
  }

  /** strings.Join(parts, " "). */
  function JoinSpaces(parts: seq<string>): string {
    if parts == [] then "" else if |parts| == 1 then parts[0] else parts[0] + " " + JoinSpaces(parts[1..])
  }

  function Quotes(words: seq<string>): seq<string> {
    seq(|words|, i requires 0 <= i < |words| => Text(QuotePieces(words[i])))
  }

  lemma QuotesSnoc(words: seq<string>, w: string)
    ensures Quotes(words + [w]) == Quotes(words) + [Text(QuotePieces(w))]
  {
  }

  function JoinOf(command: string, args: seq<string>): string {
    JoinSpaces(Quotes((if command == "" then [] else [command]) + args))
  }

  method Join(command: string, args: seq<string>) returns (line: string)
    ensures line == JoinOf(command, args)
  {
    if command == "" && |args| == 0 {
      assert Quotes([] + args) == [];
      return "";
    }
    var parts := [];
    if command != "" {
      var q := Quote(command);
      parts := parts + [q];
    }
    ghost var words := if command == "" then [] else [command];
    for i := 0 to |args|
      invariant parts == Quotes(words + args[..i])
    {
      var q := Quote(args[i]);
      QuotesSnoc(words + args[..i], args[i]);
      TakeOneMore(args, i);
      Assoc(words, args[..i], [args[i]]);
      parts := parts + [q];
    }
    assert args[..|args|] == args;
    line := JoinSpaces(parts);
  }

  lemma {:induction false} SplitJoined(words: seq<string>)
    ensures SplitOf(JoinSpaces(Quotes(words))) == Ok(words)
  {
    if words == [] {
      assert JoinSpaces(Quotes(words)) == "";
    } else {
      var first, rest := Text(QuotePieces(words[0])), words[1..];
      SplitQuote(words[0]);
      JoinFirst(words);
      assert words == [words[0]] + rest;
      if |words| > 1 {
        SplitJoined(rest);
        SplitConcat(first, ' ', JoinSpaces(Quotes(rest)));
      } else {
        assert words == [words[0]];
      }
    }
  }

  lemma JoinFirst(words: seq<string>)
    requires words != []
    ensures var first := Text(QuotePieces(words[0]));
      JoinSpaces(Quotes(words))
      == if |words| == 1 then first else first + [' '] + JoinSpaces(Quotes(words[1..]))
  {
    assert Quotes(words)[1..] == Quotes(words[1..]);
  }

  // ---------------------------------------------------------------- Parse

  /** A nil argument slice and an empty one are the same value here. */
  datatype Parsed = Parsed(command: string, args: seq<string>)

  function ParseOf(s: string): Result<Parsed> {
    match SplitOf(s)
    case Err(e) => Err(e)
    case Ok(tokens) => Ok(if tokens == [] then Parsed("", []) else Parsed(tokens[0], tokens[1..]))
  }

  method Parse(cmdStr: string) returns (r: Result<Parsed>)
    ensures r == ParseOf(cmdStr)
  {
    var split := Split(cmdStr);
    if split.Err? {
      return Err(split.error);
    }
    var tokens := split.value;
    if |tokens| == 0 {
      return Ok(Parsed("", []));
    }
    var command := tokens[0];
    var args := [];
    if |tokens| > 1 {
      args := tokens[1..];
    }
    assert args == tokens[1..];
    r := Ok(Parsed(command, args));
  }

  /** Quoting round trip. An empty command is not printed, so its arguments shift by one; in
      every other case Parse returns exactly what Join was given. */
  lemma ParseJoinIff(command: string, args: seq<string>)
    ensures ParseOf(JoinOf(command, args)) == Ok(Parsed(command, args)) <==> command != "" || args == []
  {
    var words := (if command == "" then [] else [command]) + args;
    SplitJoined(words);
    if command != "" {
      assert words[1..] == args;
    }
  }
}
