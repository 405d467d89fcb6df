/**
 Citation answers (`parse_citation_answer`): an answer text followed by a line
 `USED: [ids]` or `ABSTAIN`. Printing such an answer and parsing it gives the text
 back exactly when the text is faithful: trimmed, without a marker line and without
 a line that ends in a carriage return.
 */
module CitationAnswer {
  import opened Chars
  import opened Splitting
  import opened Wrappers

  datatype Answer = Answer(text: string, used: seq<string>, abstained: bool)

  // ---- Lines -------------------------------------------------------------------------

  function StripCr(line: string): string {
    if line != [] && line[|line| - 1] == '\r' then line[..|line| - 1] else line
  }

  function StripAll(lines: seq<string>): seq<string> {
    if lines == [] then [] else [StripCr(lines[0])] + StripAll(lines[1..])
  }

  /** `str::lines`: a closing line break ends the last line, and `\r\n` counts as one break. */
  function Lines(s: string): seq<string> {
    var pieces := Split(s, '\n');
    var last := pieces[|pieces| - 1];
    StripAll(pieces[..|pieces| - 1]) + if last == [] then [] else [last]
  }

  // ---- Marker lines -------------------------------------------------------------------

  /** What the proofs need of `char::is_alphanumeric`: its ASCII part, and that no white space is in it. */
  ghost predicate IsAlnum(alnum: char -> bool) {
    forall c :: (c as int < 128 ==> (alnum(c) <==> AsciiAlnum(c))) && (alnum(c) ==> !White(c))
  }

  function UpperChar(c: char): char { if 'a' <= c <= 'z' then (c as int - 32) as char else c }

  function Upper(s: string): (r: string)
    ensures |r| == |s| && forall i :: 0 <= i < |s| ==> r[i] == UpperChar(s[i])
  {
    seq(|s|, i requires 0 <= i < |s| => UpperChar(s[i]))
  }

  predicate IdChar(c: char, alnum: char -> bool) { alnum(c) || c == '-' || c == '_' }

  predicate UsedMarker(upper: string, alnum: char -> bool) {
    || upper == "USED" || "USED:" <= upper || "USED[" <= upper
    || ("USED " <= upper && |upper| > 5
        && forall i :: 5 <= i < |upper| ==> IdChar(upper[i], alnum) || upper[i] in "[], ")
  }

  predicate AbstainMarker(upper: string) { upper == "ABSTAIN" || "ABSTAIN:" <= upper }

  /** A line the parser takes out of the answer text. */
  predicate Marker(line: string, alnum: char -> bool) {
    var upper := Upper(Trim(line));
    UsedMarker(upper, alnum) || AbstainMarker(upper)
  }

  function First(s: string, c: char): (r: Option<nat>)
    ensures r.Some? ==> r.value < |s| && s[r.value] == c && c !in s[..r.value]
    ensures r.None? ==> c !in s
  {
    if s == [] then None else if s[0] == c then Some(0)
    else match First(s[1..], c) case None => None case Some(i) => assert s[..i + 1] == [s[0]] + s[1..][..i]; Some(i + 1)
  }

  function Last(s: string, c: char): (r: Option<nat>)
    ensures r.Some? ==> r.value < |s| && s[r.value] == c && c !in s[r.value + 1..]
    ensures r.None? ==> c !in s
  {
    if s == [] then None else if s[|s| - 1] == c then Some(|s| - 1)
    else match Last(s[..|s| - 1], c) case None => None case Some(i) =>
      assert s[i + 1..] == s[..|s| - 1][i + 1..] + [s[|s| - 1]]; Some(i)
  }

  function DropLetters(s: string): string {
    if s != [] && UpperChar(s[0]) in "USED" then DropLetters(s[1..]) else s
  }

  /** The part of a marker line that lists ids. */
  function ListPart(t: string): string {
    var l, r := First(t, '['), Last(t, ']');
    if l.Some? && r.Some? && r.value > l.value then t[l.value + 1..r.value]
    else match First(t, ':')
      case Some(c) => t[c + 1..]
      case None => DropLetters(t)
  }

  function DropFront(s: string, alnum: char -> bool): string {
    if s != [] && !IdChar(s[0], alnum) then DropFront(s[1..], alnum) else s
  }

  function DropBack(s: string, alnum: char -> bool): string {
    if s != [] && !IdChar(s[|s| - 1], alnum) then DropBack(s[..|s| - 1], alnum) else s
  }

  function CleanId(token: string, alnum: char -> bool): string { DropBack(DropFront(Trim(token), alnum), alnum) }

  function KeptId(id: string): seq<string> { if id == [] then [] else [id] }

  function Cleaner(alnum: char -> bool): string -> string { token => CleanId(token, alnum) }

  /** The tokens cleaned, without those nothing is left of. */
  function CleanIds(tokens: seq<string>, clean: string -> string): seq<string> {
    if tokens == [] then []
    else CleanIds(tokens[..|tokens| - 1], clean) + KeptId(clean(tokens[|tokens| - 1]))
  }

  function MarkerIds(line: string, alnum: char -> bool): seq<string> {
    CleanIds(Split(ListPart(Trim(line)), ','), Cleaner(alnum))
  }

  // ---- Parsing ---------------------------------------------------------------------------

  function MarkerTest(alnum: char -> bool): string -> bool { line => Marker(line, alnum) }

  /** The lines that are not dropped. */
  function BodyLines(lines: seq<string>, drop: string -> bool): seq<string> {
    if lines == [] then []
    else BodyLines(lines[..|lines| - 1], drop) + if drop(lines[|lines| - 1]) then [] else [lines[|lines| - 1]]
  }

  function DeclaredIds(lines: seq<string>, alnum: char -> bool): seq<string> {
    if lines == [] then []
    else DeclaredIds(lines[..|lines| - 1], alnum)
         + if UsedMarker(Upper(Trim(lines[|lines| - 1])), alnum) then MarkerIds(lines[|lines| - 1], alnum) else []
  }

  predicate Abstains(lines: seq<string>, alnum: char -> bool) {
    exists i :: 0 <= i < |lines| && AbstainLine(lines[i], alnum)
  }

  /** A line that abstains and is not taken for a `USED` line first. */
  predicate AbstainLine(line: string, alnum: char -> bool) {
    !UsedMarker(Upper(Trim(line)), alnum) && AbstainMarker(Upper(Trim(line)))
  }

  /** The text outside the marker lines, the ids of the `USED` lines, and whether a line abstains. */
  function Parsed(raw: string, alnum: char -> bool): Answer {
    var lines := Lines(raw);
    Answer(Trim(Join(BodyLines(lines, MarkerTest(alnum)), "\n")), DeclaredIds(lines, alnum), Abstains(lines, alnum))
  }

  method ParseCitationAnswer(raw: string, alnum: char -> bool) returns (answer: Answer)
    ensures answer == Parsed(raw, alnum)
  {
    var lines := Lines(raw);
    var used: seq<string>, abstained, body: seq<string> := [], false, [];
    for n := 0 to |lines|
      invariant ReadSoFar(lines[..n], alnum, body, used, abstained)
    {
      var line := lines[n];
      assert lines[..n + 1] == lines[..n] + [line];
      ReadLine(lines[..n], line, alnum, body, used, abstained);
      var t := Trim(line);
      var upper := Upper(t);
      if UsedMarker(upper, alnum) {
        var tokens := Split(ListPart(t), ',');
        var ids := CollectIds(tokens, alnum);
        used := used + ids;
      } else if AbstainMarker(upper) {
        abstained := true;
      } else {
        body := body + [line];
      }
    }
    assert lines[..|lines|] == lines;
    return Answer(Trim(Join(body, "\n")), used, abstained);
  }

  /** What the loop has collected from the lines so far. */
  ghost predicate ReadSoFar(lines: seq<string>, alnum: char -> bool, body: seq<string>, used: seq<string>,
                            abstained: bool) {
    && body == BodyLines(lines, MarkerTest(alnum))
    && used == DeclaredIds(lines, alnum)
    && abstained == Abstains(lines, alnum)
  }

  lemma ReadLine(lines: seq<string>, line: string, alnum: char -> bool, body: seq<string>, used: seq<string>,
                 abstained: bool)
    requires ReadSoFar(lines, alnum, body, used, abstained)
    ensures var upper := Upper(Trim(line));
      var ids := CleanIds(Split(ListPart(Trim(line)), ','), Cleaner(alnum));
      if UsedMarker(upper, alnum) then ReadSoFar(lines + [line], alnum, body, used + ids, abstained)
      else if AbstainMarker(upper) then ReadSoFar(lines + [line], alnum, body, used, true)
      else ReadSoFar(lines + [line], alnum, body + [line], used, abstained)
  {
    BodySnoc(lines, line, MarkerTest(alnum));
    DeclaresSnoc(lines, line, alnum);
    AbstainsSnoc(lines, line, alnum);
  }

  lemma AbstainsSnoc(lines: seq<string>, last: string, alnum: char -> bool)
    ensures Abstains(lines + [last], alnum) <==> Abstains(lines, alnum) || AbstainLine(last, alnum)
  {
    var more := lines + [last];
    assert forall i :: 0 <= i < |lines| ==> more[i] == lines[i];
    assert more[|lines|] == last;
  }

  method CollectIds(tokens: seq<string>, alnum: char -> bool) returns (ids: seq<string>)
    ensures ids == CleanIds(tokens, Cleaner(alnum))
  {
    ids := [];
    var clean := Cleaner(alnum);
    for k := 0 to |tokens|
      invariant ids == CleanIds(tokens[..k], clean)
    {
      var id := clean(tokens[k]);
      CleanIdsSnoc(tokens[..k], tokens[k], clean);
      assert tokens[..k + 1] == tokens[..k] + [tokens[k]];
      if id != [] {
        ids := ids + [id];
      }
    }
    assert tokens[..|tokens|] == tokens;
  }

  lemma CleanIdsSnoc(tokens: seq<string>, last: string, clean: string -> string)
    ensures CleanIds(tokens + [last], clean) == CleanIds(tokens, clean) + KeptId(clean(last))
  {
    assert (tokens + [last])[..|tokens|] == tokens;
  }

  // ---- Printing --------------------------------------------------------------------------

  ghost predicate GoodId(id: string, alnum: char -> bool) {
    id != [] && forall i :: 0 <= i < |id| ==> IdChar(id[i], alnum)
  }

  function UsedLine(ids: seq<string>): string { "USED: [" + Join(ids, ", ") + "]" }

  function Printed(body: string, ids: seq<string>): string { body + "\n" + UsedLine(ids) }

  /** Trimmed, and no line is a marker or ends in a carriage return. */
  predicate Faithful(body: string, alnum: char -> bool) {
    Tight(body) && Untouched(Split(body, '\n'), MarkerTest(alnum))
  }

  // ---- The id list ---------------------------------------------------------------------------

  lemma GoodIdFacts(id: string, alnum: char -> bool)
    requires IsAlnum(alnum) && GoodId(id, alnum)
    ensures Tight(id) && ',' !in id && '[' !in id && ']' !in id && '\n' !in id
    ensures DropBack(DropFront(id, alnum), alnum) == id
  {
    forall i | 0 <= i < |id| ensures !White(id[i]) && id[i] !in ",[]\n" {
      assert alnum(id[i]) || id[i] == '-' || id[i] == '_';
    }
  }

  lemma CleanOfId(pre: string, id: string, alnum: char -> bool)
    requires IsAlnum(alnum) && GoodId(id, alnum) && AllWhite(pre)
    ensures Cleaner(alnum)(pre + id) == id
  {
    GoodIdFacts(id, alnum);
    TrimAround(pre, id, []);
    assert pre + id + [] == pre + id;
  }

  /** Splitting a printed list and cleaning the tokens gives the ids. */
  lemma {:induction false} ListedIds(pre: string, ids: seq<string>, alnum: char -> bool, clean: string -> string)
    requires IsAlnum(alnum) && (pre == "" || pre == " ") && forall id :: id in ids ==> GoodId(id, alnum)
    requires clean == Cleaner(alnum)
    ensures CleanIds(Split(pre + Join(ids, ", "), ','), clean) == ids
    decreases |ids|
  {
    if ids == [] {
      assert pre + Join(ids, ", ") == pre;
      CleanOfBlank(pre, alnum);
      OneListed(pre, clean);
    } else {
      var id, rest := ids[0], ids[1..];
      GoodIdFacts(id, alnum);
      CleanOfId(pre, id, alnum);
      if rest == [] {
        assert Join(ids, ", ") == id;
        OneListed(pre + id, clean);
      } else {
        ListText(pre, ids);
        ListedIds(" ", rest, alnum, clean);
        FirstListed(pre + id, " " + Join(rest, ", "), clean);
      }
    }
  }

  lemma ListText(pre: string, ids: seq<string>)
    requires |ids| > 1
    ensures pre + Join(ids, ", ") == (pre + ids[0]) + [','] + (" " + Join(ids[1..], ", "))
  {
  }

  lemma OneListed(token: string, clean: string -> string)
    requires ',' !in token
    ensures CleanIds(Split(token, ','), clean) == KeptId(clean(token))
  {
    SplitNone(token, ',');
    CleanIdsCons(token, [], clean);
  }

  lemma FirstListed(first: string, tail: string, clean: string -> string)
    requires ',' !in first
    ensures CleanIds(Split(first + [','] + tail, ','), clean) ==
      KeptId(clean(first)) + CleanIds(Split(tail, ','), clean)
  {
    SplitCons(first, ',', tail);
    CleanIdsCons(first, Split(tail, ','), clean);
  }

  lemma {:induction false} CleanIdsCons(token: string, tokens: seq<string>, clean: string -> string)
    ensures CleanIds([token] + tokens, clean) == KeptId(clean(token)) + CleanIds(tokens, clean)
    ensures [token] + [] == [token]
  {
    if tokens == [] {
      CleanIdsSnoc([], token, clean);
      assert [token] + tokens == [] + [token];
    } else {
      var init, last := tokens[..|tokens| - 1], tokens[|tokens| - 1];
      CleanIdsCons(token, init, clean);
      CleanIdsSnoc([token] + init, last, clean);
      assert [token] + tokens == ([token] + init) + [last];
    }
  }

  lemma CleanOfBlank(pre: string, alnum: char -> bool)
    requires pre == "" || pre == " "
    ensures Cleaner(alnum)(pre) == []
  {
    BlankIsWhite(pre);
  }

  lemma {:induction false} ListHasNoBreaks(ids: seq<string>, alnum: char -> bool)
    requires IsAlnum(alnum) && forall id :: id in ids ==> GoodId(id, alnum)
    ensures forall c :: c in Join(ids, ", ") ==> c !in "[]\n"
  {
    if ids != [] {
      GoodIdFacts(ids[0], alnum);
      ListHasNoBreaks(ids[1..], alnum);
    }
  }

  lemma UpperKeepsUsed(line: string)
    requires "USED:" <= line
    ensures "USED:" <= Upper(line)
  {
    forall i | 0 <= i < 5 ensures Upper(line)[i] == "USED:"[i] {
      assert line[i] == "USED:"[i];
    }
  }

  lemma UsedLineText(list: string)
    requires '\n' !in list
    ensures var line := "USED: [" + list + "]";
      Tight(line) && line != [] && "USED:" <= line && '\n' !in line
  {
    var line := "USED: [" + list + "]";
    assert line[..5] == "USED:";
    assert line[|line| - 1] == ']';
  }

  lemma UsedLineIds(list: string, ids: seq<string>, alnum: char -> bool)
    requires IsAlnum(alnum) && forall id :: id in ids ==> GoodId(id, alnum)
    requires list == Join(ids, ", ")
    ensures CleanIds(Split(ListPart("USED: [" + list + "]"), ','), Cleaner(alnum)) == ids
  {
    ListHasNoBreaks(ids, alnum);
    ListPartOfLine(list);
    ListedIds("", ids, alnum, Cleaner(alnum));
    assert "" + list == list;
  }

  /** The `USED` line is a marker, and gives back the ids printed in it. */
  lemma UsedLineParses(ids: seq<string>, alnum: char -> bool)
    requires IsAlnum(alnum) && forall id :: id in ids ==> GoodId(id, alnum)
    ensures '\n' !in UsedLine(ids) && UsedLine(ids) != []
    ensures "USED:" <= Upper(Trim(UsedLine(ids)))
    ensures MarkerIds(UsedLine(ids), alnum) == ids
  {
    var list, line := Join(ids, ", "), UsedLine(ids);
    ListHasNoBreaks(ids, alnum);
    UsedLineText(list);
    TightIsTrimmed(line);
    UpperKeepsUsed(line);
    UsedLineIds(list, ids, alnum);
  }

  lemma ListPartOfLine(list: string)
    requires '[' !in list && ']' !in list
    ensures ListPart("USED: [" + list + "]") == list
  {
    BracketsOfLine(list);
    var line := "USED: [" + list + "]";
    assert line[7..|line| - 1] == list;
  }

  lemma BracketsOfLine(list: string)
    requires '[' !in list && ']' !in list
    ensures var line := "USED: [" + list + "]";
      First(line, '[') == Some(6) && Last(line, ']') == Some(|line| - 1)
  {
    var line := "USED: [" + list + "]";
    assert line[6] == '[';
    assert line[|line| - 1] == ']';
    var l := First(line, '[');
    assert forall i :: 0 <= i < 6 ==> line[i] != '[';
    assert l.Some?;
    assert forall v: nat :: 6 < v < |line| ==> line[6] in line[..v];
  }

  // ---- The text --------------------------------------------------------------------------------

  function Weight(lines: seq<string>): nat {
    if lines == [] then 0 else Weight(lines[..|lines| - 1]) + |lines[|lines| - 1]| + 1
  }

  lemma {:induction false} JoinSnoc(lines: seq<string>, last: string)
    requires lines != []
    ensures Join(lines + [last], "\n") == Join(lines, "\n") + "\n" + last
  {
    if |lines| > 1 {
      assert (lines + [last])[1..] == lines[1..] + [last];
      JoinSnoc(lines[1..], last);
    } else {
      assert (lines + [last])[1..] == [last];
    }
  }

  lemma {:induction false} JoinWeight(lines: seq<string>)
    requires lines != []
    ensures |Join(lines, "\n")| + 1 == Weight(lines)
  {
    if |lines| > 1 {
      var init, last := lines[..|lines| - 1], lines[|lines| - 1];
      assert lines == init + [last];
      JoinWeight(init);
      JoinSnoc(init, last);
    }
  }

  lemma {:induction false} StripAllSnoc(lines: seq<string>, last: string)
    ensures StripAll(lines + [last]) == StripAll(lines) + [StripCr(last)]
  {
    if lines == [] {
      assert lines + [last] == [last];
    } else {
      assert (lines + [last])[1..] == lines[1..] + [last];
      StripAllSnoc(lines[1..], last);
    }
  }

  predicate Untouched(lines: seq<string>, drop: string -> bool) {
    forall line :: line in lines ==> StripCr(line) == line && !drop(line)
  }

  ghost predicate LosesUnlessUntouched(lines: seq<string>, drop: string -> bool) {
    var left := Weight(BodyLines(StripAll(lines), drop));
    left <= Weight(lines) && (left == Weight(lines) ==> Untouched(lines, drop))
  }

  /** Stripping and dropping lines loses weight unless no line is touched. */
  lemma {:induction false} BodyWeight(lines: seq<string>, drop: string -> bool)
    ensures LosesUnlessUntouched(lines, drop)
  {
    if lines != [] {
      BodyWeight(lines[..|lines| - 1], drop);
      BodyWeightSnoc(lines[..|lines| - 1], lines[|lines| - 1], drop);
      assert lines[..|lines| - 1] + [lines[|lines| - 1]] == lines;
    }
  }

  lemma BodyWeightSnoc(init: seq<string>, last: string, drop: string -> bool)
    requires LosesUnlessUntouched(init, drop)
    ensures LosesUnlessUntouched(init + [last], drop)
  {
    LeftSnoc(init, last, drop);
    WeightSnoc(init, last);
    UntouchedSnoc(init, last, drop);
    assert |StripCr(last)| <= |last| && (|StripCr(last)| == |last| ==> StripCr(last) == last);
  }

  lemma LeftSnoc(init: seq<string>, last: string, drop: string -> bool)
    ensures Weight(BodyLines(StripAll(init + [last]), drop))
      == Weight(BodyLines(StripAll(init), drop)) + if drop(StripCr(last)) then 0 else |StripCr(last)| + 1
  {
    StripAllSnoc(init, last);
    BodySnoc(StripAll(init), StripCr(last), drop);
  }

  lemma WeightSnoc(lines: seq<string>, last: string)
    ensures Weight(lines + [last]) == Weight(lines) + |last| + 1
  {
    assert (lines + [last])[..|lines|] == lines;
  }

  /** Lines that are not touched all stay. */
  lemma {:induction false} UntouchedStay(lines: seq<string>, drop: string -> bool)
    requires Untouched(lines, drop)
    ensures StripAll(lines) == lines && BodyLines(lines, drop) == lines
  {
    if lines != [] {
      var init, last := lines[..|lines| - 1], lines[|lines| - 1];
      assert init + [last] == lines;
      UntouchedSnoc(init, last, drop);
      UntouchedStay(init, drop);
      StripAllSnoc(init, last);
    }
  }

  lemma UntouchedSnoc(lines: seq<string>, last: string, drop: string -> bool)
    ensures Untouched(lines + [last], drop) <==> (Untouched(lines, drop) && StripCr(last) == last && !drop(last))
  {
    if Untouched(lines + [last], drop) {
      assert last in lines + [last];
      assert forall line :: line in lines ==> line in lines + [last];
    }
  }

  lemma BodySnoc(lines: seq<string>, last: string, drop: string -> bool)
    ensures var body := BodyLines(lines, drop);
      && BodyLines(lines + [last], drop) == (if drop(last) then body else body + [last])
      && Weight(BodyLines(lines + [last], drop)) == Weight(body) + if drop(last) then 0 else |last| + 1
  {
    assert (lines + [last])[..|lines|] == lines;
    var body := BodyLines(lines, drop);
    assert (body + [last])[..|body|] == body;
  }

  /** The lines of a printed answer: those of the text, stripped, and the `USED` line. */
  lemma LinesOfPrinted(body: string, ids: seq<string>, alnum: char -> bool)
    requires IsAlnum(alnum) && forall id :: id in ids ==> GoodId(id, alnum)
    ensures Lines(Printed(body, ids)) == StripAll(Split(body, '\n')) + [UsedLine(ids)]
  {
    UsedLineParses(ids, alnum);
    SplitSnoc(body, '\n', UsedLine(ids));
    var pieces := Split(body, '\n');
    assert (pieces + [UsedLine(ids)])[..|pieces|] == pieces;
  }

  lemma DeclaresSnoc(lines: seq<string>, last: string, alnum: char -> bool)
    ensures DeclaredIds(lines + [last], alnum)
      == DeclaredIds(lines, alnum) + if UsedMarker(Upper(Trim(last)), alnum) then MarkerIds(last, alnum) else []
  {
    assert (lines + [last])[..|lines|] == lines;
  }

  lemma {:induction false} UnmarkedDeclareNothing(lines: seq<string>, alnum: char -> bool)
    requires forall line :: line in lines ==> !Marker(line, alnum)
    ensures DeclaredIds(lines, alnum) == [] && !Abstains(lines, alnum)
  {
    if lines != [] {
      assert lines[|lines| - 1] in lines;
      UnmarkedDeclareNothing(lines[..|lines| - 1], alnum);
      forall i | 0 <= i < |lines| ensures !Marker(lines[i], alnum) {
        assert lines[i] in lines;
      }
    }
  }

  /** What parsing a printed answer gives, whatever the text. */
  lemma PrintedAnswer(body: string, ids: seq<string>, alnum: char -> bool)
    requires IsAlnum(alnum) && forall id :: id in ids ==> GoodId(id, alnum)
    ensures var lines := StripAll(Split(body, '\n'));
      && Parsed(Printed(body, ids), alnum).text == Trim(Join(BodyLines(lines, MarkerTest(alnum)), "\n"))
      && Parsed(Printed(body, ids), alnum).used == DeclaredIds(lines, alnum) + ids
      && (Parsed(Printed(body, ids), alnum).abstained <==> Abstains(lines, alnum))
  {
    var lines, line := StripAll(Split(body, '\n')), UsedLine(ids);
    LinesOfPrinted(body, ids, alnum);
    UsedLineParses(ids, alnum);
    BodySnoc(lines, line, MarkerTest(alnum));
    DeclaresSnoc(lines, line, alnum);
    AbstainsSnoc(lines, line, alnum);
  }

  /** Printing and parsing is the identity exactly on the faithful texts. */
  lemma PrintedAnswerParsesIff(body: string, ids: seq<string>, alnum: char -> bool)
    requires IsAlnum(alnum) && forall id :: id in ids ==> GoodId(id, alnum)
    ensures Faithful(body, alnum) <==> Parsed(Printed(body, ids), alnum) == Answer(body, ids, false)
    ensures Faithful(body, alnum) <==> Parsed(Printed(body, ids), alnum).text == body
  {
    var lines, drop := Split(body, '\n'), MarkerTest(alnum);
    var kept := BodyLines(StripAll(lines), drop);
    PrintedAnswer(body, ids, alnum);
    JoinOfSplit(body, '\n');
    if Faithful(body, alnum) {
      UntouchedStay(lines, drop);
      UnmarkedDeclareNothing(lines, alnum);
      TightIsTrimmed(body);
    }
    if Trim(Join(kept, "\n")) == body {
      TextIsFaithful(body, kept, alnum);
    }
  }

  lemma TextIsFaithful(body: string, kept: seq<string>, alnum: char -> bool)
    requires kept == BodyLines(StripAll(Split(body, '\n')), MarkerTest(alnum))
    requires Trim(Join(kept, "\n")) == body
    ensures Faithful(body, alnum)
  {
    var lines := Split(body, '\n');
    var a, b := TrimParts(Join(kept, "\n"));
    JoinOfSplit(body, '\n');
    BodyWeight(lines, MarkerTest(alnum));
    JoinWeight(lines);
    assert |Join(kept, "\n")| >= |body|;
    if kept != [] {
      JoinWeight(kept);
    } else {
      SplitNone(body, '\n');
      EmptyIsNoMarker(alnum);
    }
  }

  lemma EmptyIsNoMarker(alnum: char -> bool)
    ensures !Marker("", alnum)
  {
  }

  /** Whatever the reply, a declared id is not empty and ends in id characters on both sides. */
  lemma {:induction false} DeclaredIdsAreClean(lines: seq<string>, alnum: char -> bool)
    ensures forall id :: id in DeclaredIds(lines, alnum) ==>
      id != [] && IdChar(id[0], alnum) && IdChar(id[|id| - 1], alnum)
  {
    if lines != [] {
      DeclaredIdsAreClean(lines[..|lines| - 1], alnum);
      CleanIdsAreClean(Split(ListPart(Trim(lines[|lines| - 1])), ','), alnum);
    }
  }

  lemma {:induction false} CleanIdsAreClean(tokens: seq<string>, alnum: char -> bool)
    ensures forall id :: id in CleanIds(tokens, Cleaner(alnum)) ==>
      id != [] && IdChar(id[0], alnum) && IdChar(id[|id| - 1], alnum)
  {
    if tokens != [] {
      CleanEnds(Trim(tokens[|tokens| - 1]), alnum);
      CleanIdsAreClean(tokens[..|tokens| - 1], alnum);
    }
  }

  lemma CleanEnds(s: string, alnum: char -> bool)
    ensures var id := DropBack(DropFront(s, alnum), alnum);
      id != [] ==> IdChar(id[0], alnum) && IdChar(id[|id| - 1], alnum)
  {
    FrontIsClean(s, alnum);
    BackIsClean(DropFront(s, alnum), alnum);
  }

  lemma {:induction false} FrontIsClean(s: string, alnum: char -> bool)
    ensures DropFront(s, alnum) != [] ==> IdChar(DropFront(s, alnum)[0], alnum)
  {
    if s != [] {
      FrontIsClean(s[1..], alnum);
    }
  }

  lemma {:induction false} BackIsClean(s: string, alnum: char -> bool)
    ensures var id := DropBack(s, alnum); id != [] ==> IdChar(id[|id| - 1], alnum) && id[0] == s[0]
  {
    if s != [] {
      BackIsClean(s[..|s| - 1], alnum);
    }
  }

  /** An unpunctuated sentence that begins with "Used" is taken for a marker line. */
  lemma UnpunctuatedSentenceIsDropped(words: string, alnum: char -> bool)
    requires IsAlnum(alnum) && words != [] && !White(words[|words| - 1])
    requires forall i :: 0 <= i < |words| ==> alnum(words[i]) || words[i] == ' '
    ensures Marker("Used " + words, alnum)
  {
    var line := "Used " + words;
    TightIsTrimmed(line);
    var upper := Upper(line);
    forall i | 5 <= i < |upper| ensures IdChar(upper[i], alnum) || upper[i] in "[], " {
      assert line[i] == words[i - 5] && upper[i] == UpperChar(line[i]);
    }
    UsedPrefix(words);
  }

  lemma UsedPrefix(words: string)
    ensures "USED " <= Upper("Used " + words)
  {
    var line := "Used " + words;
    assert line[0] == 'U' && line[1] == 's' && line[2] == 'e' && line[3] == 'd' && line[4] == ' ';
    assert Upper(line)[..5] == "USED ";
  }

  // ---- Other marker lines ---------------------------------------------------------------------

  /** The reply of a model that abstains, after a text or not. */
  const ABSTAIN_LINE := "ABSTAIN"

  lemma AbstainLineIsMarker(alnum: char -> bool)
    ensures AbstainLine(ABSTAIN_LINE, alnum) && Marker(ABSTAIN_LINE, alnum) && !UsedMarker("ABSTAIN", alnum)
    ensures '\n' !in ABSTAIN_LINE && StripCr(ABSTAIN_LINE) == ABSTAIN_LINE
  {
    TightIsTrimmed(ABSTAIN_LINE);
    assert Upper(ABSTAIN_LINE) == "ABSTAIN";
    assert "ABSTAIN"[0] != "USED:"[0] && "ABSTAIN"[0] != "USED["[0] && "ABSTAIN"[0] != "USED "[0];
  }

  lemma LinesWithLast(body: string, line: string)
    requires '\n' !in line && line != []
    ensures Lines(body + "\n" + line) == StripAll(Split(body, '\n')) + [line]
  {
    SplitSnoc(body, '\n', line);
    var pieces := Split(body, '\n');
    assert (pieces + [line])[..|pieces|] == pieces;
  }

  /** A closing `ABSTAIN` line makes any reply an abstention, and leaves its text and ids as they are. */
  lemma AbstentionParses(body: string, alnum: char -> bool)
    requires IsAlnum(alnum)
    ensures var lines, answer := StripAll(Split(body, '\n')), Parsed(body + "\n" + ABSTAIN_LINE, alnum);
      && answer.abstained
      && answer.used == DeclaredIds(lines, alnum)
      && answer.text == Trim(Join(BodyLines(lines, MarkerTest(alnum)), "\n"))
    ensures Faithful(body, alnum) ==> Parsed(body + "\n" + ABSTAIN_LINE, alnum) == Answer(body, [], true)
  {
    var lines := StripAll(Split(body, '\n'));
    AbstainLineIsMarker(alnum);
    TightIsTrimmed(ABSTAIN_LINE);
    assert Upper(ABSTAIN_LINE) == "ABSTAIN";
    LinesWithLast(body, ABSTAIN_LINE);
    BodySnoc(lines, ABSTAIN_LINE, MarkerTest(alnum));
    DeclaresSnoc(lines, ABSTAIN_LINE, alnum);
    AbstainsSnoc(lines, ABSTAIN_LINE, alnum);
    if Faithful(body, alnum) {
      UntouchedStay(Split(body, '\n'), MarkerTest(alnum));
      UnmarkedDeclareNothing(Split(body, '\n'), alnum);
      JoinOfSplit(body, '\n');
      TightIsTrimmed(body);
    }
  }

  /** Alone it is the whole answer. */
  lemma BareAbstention(alnum: char -> bool)
    ensures Parsed(ABSTAIN_LINE, alnum) == Answer("", [], true)
  {
    AbstainLineIsMarker(alnum);
    TightIsTrimmed(ABSTAIN_LINE);
    assert Upper(ABSTAIN_LINE) == "ABSTAIN";
    SplitNone(ABSTAIN_LINE, '\n');
    assert Lines(ABSTAIN_LINE) == [] + [ABSTAIN_LINE];
    BodySnoc([], ABSTAIN_LINE, MarkerTest(alnum));
    DeclaresSnoc([], ABSTAIN_LINE, alnum);
    AbstainsSnoc([], ABSTAIN_LINE, alnum);
  }

  /** Without brackets the ids after the colon are read just the same. */
  lemma UnbracketedLineParses(ids: seq<string>, alnum: char -> bool)
    requires IsAlnum(alnum) && ids != [] && forall id :: id in ids ==> GoodId(id, alnum)
    ensures var line := "USED: " + Join(ids, ", "); Marker(line, alnum) && MarkerIds(line, alnum) == ids
  {
    var list := Join(ids, ", ");
    var line := "USED: " + list;
    ListHasNoBreaks(ids, alnum);
    ListEndsInId(ids, alnum);
    assert line[..5] == "USED:" && line[|line| - 1] == list[|list| - 1];
    TightIsTrimmed(line);
    UpperKeepsUsed(line);
    ListAfterColon(list);
    ListedIds(" ", ids, alnum, Cleaner(alnum));
  }

  lemma {:induction false} ListEndsInId(ids: seq<string>, alnum: char -> bool)
    requires IsAlnum(alnum) && ids != [] && forall id :: id in ids ==> GoodId(id, alnum)
    ensures var list := Join(ids, ", "); list != [] && !White(list[|list| - 1])
  {
    if |ids| == 1 {
      GoodIdFacts(ids[0], alnum);
    } else {
      ListEndsInId(ids[1..], alnum);
    }
  }

  lemma ListAfterColon(list: string)
    requires '[' !in list && ']' !in list
    ensures ListPart("USED: " + list) == " " + list
  {
    var line := "USED: " + list;
    assert forall i :: 0 <= i < |line| ==> line[i] != '[' by {
      assert forall i :: 6 <= i < |line| ==> line[i] == list[i - 6];
    }
    assert line[4] == ':';
    assert forall v: nat :: 4 < v < |line| ==> line[4] in line[..v];
    assert forall i :: 0 <= i < 4 ==> line[i] != ':';
    assert line[5..] == " " + list;
  }

  function Bracketed(space: string, list: string): string { "USED" + space + "[" + list + "]" }

  /** The colon before a bracketed list may be missing, and the space too. */
  lemma BracketedLineParses(space: string, ids: seq<string>, alnum: char -> bool)
    requires IsAlnum(alnum) && (space == "" || space == " ") && forall id :: id in ids ==> GoodId(id, alnum)
    ensures var line := Bracketed(space, Join(ids, ", ")); Marker(line, alnum) && MarkerIds(line, alnum) == ids
  {
    var list := Join(ids, ", ");
    ListHasNoBreaks(ids, alnum);
    forall c | c in list ensures IdChar(c, alnum) || c in ", " {
      ListChars(ids, alnum, c);
    }
    BracketedIsMarker(space, list, alnum);
    BracketedIsTight(space, list);
    ListBetween("USED" + space, list);
    ListedIds("", ids, alnum, Cleaner(alnum));
    assert "" + list == list;
  }

  lemma BracketedIsTight(space: string, list: string)
    ensures Trim(Bracketed(space, list)) == Bracketed(space, list)
  {
    var line := Bracketed(space, list);
    assert line[0] == 'U' && line[|line| - 1] == ']';
    TightIsTrimmed(line);
  }

  lemma {:induction false} ListChars(ids: seq<string>, alnum: char -> bool, c: char)
    requires c in Join(ids, ", ") && forall id :: id in ids ==> GoodId(id, alnum)
    ensures IdChar(c, alnum) || c in ", "
  {
    if |ids| == 1 {
      assert ids[0] in ids;
    } else if c !in ids[0] && c !in ", " {
      ListChars(ids[1..], alnum, c);
    } else if c in ids[0] {
      assert ids[0] in ids;
    }
  }

  lemma ListBetween(front: string, list: string)
    requires '[' !in front && ']' !in front && '[' !in list && ']' !in list
    ensures ListPart(front + "[" + list + "]") == list
  {
    var line := front + "[" + list + "]";
    assert line[|front|] == '[' && line[|line| - 1] == ']';
    assert forall i :: 0 <= i < |front| ==> line[i] == front[i] && front[i] in front;
    FirstIs(line, '[', |front|);
    assert Last(line, ']') == Some(|line| - 1);
    assert line[|front| + 1..|line| - 1] == list;
  }

  lemma FirstIs(s: string, c: char, at: nat)
    requires at < |s| && s[at] == c && forall i :: 0 <= i < at ==> s[i] != c
    ensures First(s, c) == Some(at)
  {
    assert s[at] in s;
    forall v: nat | at < v <= |s| ensures c in s[..v] {
      assert s[..v][at] == c;
    }
  }

  lemma BracketedIsMarker(space: string, list: string, alnum: char -> bool)
    requires IsAlnum(alnum) && (space == "" || space == " ")
    requires forall c :: c in list ==> IdChar(c, alnum) || c in ", "
    ensures UsedMarker(Upper(Bracketed(space, list)), alnum)
  {
    var line := Bracketed(space, list);
    var upper := Upper(line);
    assert upper[..4] == "USED";
    if space == "" {
      assert upper[..5] == "USED[";
    } else {
      assert upper[..5] == "USED ";
      forall i | 5 <= i < |upper| ensures IdChar(upper[i], alnum) || upper[i] in "[], " {
        assert line[i] == '[' || line[i] == ']' || line[i] == list[i - 6];
        assert 6 <= i < |line| - 1 ==> list[i - 6] in list;
      }
    }
  }

  /** A line ends at `\n`, and at `\r\n` just the same. */
  lemma FirstLine(line: string, rest: string)
    requires '\n' !in line && (line != [] ==> line[|line| - 1] != '\r')
    ensures Lines(line + "\n" + rest) == [line] + Lines(rest)
    ensures Lines(line + "\r\n" + rest) == [line] + Lines(rest)
  {
    LineBefore(line, rest);
    LineBefore(line + "\r", rest);
    assert line + "\r\n" + rest == (line + "\r") + "\n" + rest;
    assert (line + "\r")[..|line|] == line;
  }

  lemma LineBefore(line: string, rest: string)
    requires '\n' !in line
    ensures Lines(line + "\n" + rest) == [StripCr(line)] + Lines(rest)
  {
    SplitCons(line, '\n', rest);
    var pieces := Split(rest, '\n');
    assert ([line] + pieces)[..|pieces|] == [line] + pieces[..|pieces| - 1];
    assert ([line] + pieces)[|pieces|] == pieces[|pieces| - 1];
    assert ([line] + pieces[..|pieces| - 1])[1..] == pieces[..|pieces| - 1];
  }
}
