/** What the values of Transfer-Encoding and Connection lines mean to the parser. */
module HttpConnection {
  import opened HttpGrammar
  import opened HttpStep
  import opened HttpInvariant
  import opened HttpTracking
  import opened HttpFieldBulk
  import opened HttpValueBulk
  import opened HttpHeaders

  // ---------- matching one word ----------

  /** A word the value matcher looks for, and its states while matching, after a mismatch and after the word. */
  datatype Matcher = Matcher(word: string, same: HeaderState, miss: HeaderState, done: HeaderState)

  const CHUNKED := Matcher(CHUNKED_WORD, MatchingTransferEncodingChunked, General, TransferEncodingChunked)
  const KEEP_ALIVE := Matcher(KEEP_ALIVE_WORD, MatchingConnectionKeepAlive, MatchingConnectionToken,
                              ConnectionKeepAlive)
  const CLOSE := Matcher(CLOSE_WORD, MatchingConnectionClose, MatchingConnectionToken, ConnectionClose)
  const UPGRADE := Matcher(UPGRADE_WORD, MatchingConnectionUpgrade, MatchingConnectionToken, ConnectionUpgrade)

  predicate Known(m: Matcher) { m == CHUNKED || m == KEEP_ALIVE || m == CLOSE || m == UPGRADE }

  /** The text in lower case, as the matcher folds it. */
  function Folded(v: seq<byte>): string { seq(|v|, i requires 0 <= i < |v| => Lower(v[i]) as char) }

  /** The text is the word in any case, followed by nothing but spaces. */
  predicate Says(word: string, v: seq<byte>) {
    |v| >= |word| && Folded(v[..|word|]) == word && forall i :: |word| <= i < |v| ==> v[i] == SP
  }

  /** The text is a beginning of the word, not all of it. */
  predicate Begins(word: string, v: seq<byte>) { |v| < |word| && Folded(v) <= word }

  function ClassOf(m: Matcher, v: seq<byte>): HeaderState {
    if Says(m.word, v) then m.done else if Begins(m.word, v) then m.same else m.miss
  }

  lemma WordSizes(m: Matcher)
    requires Known(m)
    ensures |m.word| >= 5 && m.same != m.miss && m.same != m.done && m.miss != m.done
  {
  }

  lemma FoldedGrows(v: seq<byte>, ch: byte)
    ensures Folded(v + [ch]) == Folded(v) + [Lower(ch) as char]
  {
  }

  lemma BeginsGrows(word: string, v: seq<byte>, ch: byte)
    requires |word| >= 2
    ensures Begins(word, v + [ch]) <==> Begins(word, v) && word[|v|] == Lower(ch) as char && |v| + 1 < |word|
  {
    FoldedGrows(v, ch);
    PrefixStep(Folded(v), Lower(ch) as char, word);
  }

  lemma SaysGrows(word: string, v: seq<byte>, ch: byte)
    requires |word| >= 2
    ensures Says(word, v + [ch]) <==>
      (Says(word, v) && ch == SP) || (Begins(word, v) && word[|v|] == Lower(ch) as char && |v| + 1 == |word|)
  {
    var u := v + [ch];
    FoldedGrows(v, ch);
    if |u| == |word| {
      assert u[..|word|] == u;
      PrefixStep(Folded(v), Lower(ch) as char, word);
    } else if |u| > |word| {
      assert u[..|word|] == v[..|word|];
      assert u[|v|] == ch;
      assert forall i :: |word| <= i < |v| ==> u[i] == v[i];
    }
  }

  lemma OneOrOther(word: string, v: seq<byte>)
    ensures !(Says(word, v) && Begins(word, v))
  {
  }

  /** One more character, other than the comma that ends a Connection element. */
  lemma ClassStep(m: Matcher, v: seq<byte>, index: int, ch: byte)
    requires Known(m) && v != [] && (m == CHUNKED || ch != ',' as int)
    requires ClassOf(m, v) == m.same ==> index == |v| - 1
    ensures ValueHeaderState(ClassOf(m, v), index, ch) == ClassOf(m, v + [ch])
    ensures ClassOf(m, v + [ch]) == m.same ==>
      ClassOf(m, v) == m.same && ValueIndex(ClassOf(m, v), index, ch) == |v|
  {
    WordSizes(m);
    BeginsGrows(m.word, v, ch);
    SaysGrows(m.word, v, ch);
    hide Says, Begins;
    MatcherStep(m, index, ch);
  }

  /** The table of the value matcher, word by word. */
  lemma MatcherStep(m: Matcher, index: int, ch: byte)
    requires Known(m) && (m == CHUNKED || ch != ',' as int)
    ensures 0 <= index && index + 1 < |m.word| ==>
      ValueHeaderState(m.same, index, ch) ==
        if m.word[index + 1] != Lower(ch) as char then m.miss else if index + 2 == |m.word| then m.done else m.same
    ensures ValueHeaderState(m.done, index, ch) == if ch == SP then m.done else m.miss
    ensures ValueHeaderState(m.miss, index, ch) == m.miss
    ensures ValueIndex(m.same, index, ch) == index + 1
  {
  }

  predicate AllHeaderChars(s: seq<byte>) { forall i :: 0 <= i < |s| ==> IsHeaderChar(s[i]) }

  /** A character of a value that is not a length: only the matcher moves, and at a comma what it found is recorded. */
  lemma MatcherChar(q: Parser, ch: byte)
    requires IsHeaderChar(ch) && !LengthState(q.hstate)
    ensures var r := if ConnectionWordSeen(q.hstate) && ch == ',' as int then RecordFlags(q) else q;
      ValueChar(q, ch) == Out(r.(hstate := ValueHeaderState(q.hstate, q.index, ch),
                                 index := ValueIndex(q.hstate, q.index, ch)), [], Running)
  {
    hide ValueHeaderState, ValueIndex, IsHeaderChar, RecordFlags;
  }

  lemma MatcherStates(m: Matcher, v: seq<byte>)
    requires Known(m)
    ensures !LengthState(ClassOf(m, v)) && (ConnectionWordSeen(ClassOf(m, v)) ==> m != CHUNKED)
  {
    hide Says, Begins;
  }

  /** The first letter of a word sets out to match it; what follows is matched to the end of the element. */
  lemma {:induction false} WordRead(m: Matcher, q: Parser, v: seq<byte>)
    requires Known(m) && v != [] && Lower(v[0]) as char == m.word[0] && q.hstate == m.same && q.index == 0
    requires AllHeaderChars(v) && (m == CHUNKED || ',' as int !in v)
    ensures var o := ValueFold(q, v[1..]);
      && o.status.Running? && o == Out(q.(hstate := ClassOf(m, v), index := o.q.index), [], Running)
      && (ClassOf(m, v) == m.same ==> o.q.index == |v| - 1)
  {
    hide ValueChar, ClassOf, Known, IsHeaderChar, ValueHeaderState, ValueIndex, LengthState, ConnectionWordSeen;
    if |v| == 1 {
      assert v[1..] == [];
      FirstClass(m, v);
    } else {
      var init, ch := v[..|v| - 1], v[|v| - 1];
      assert v == init + [ch] && v[1..][..|v| - 2] == init[1..] && v[1..][|v| - 2] == ch;
      WordRead(m, q, init);
      var p := ValueFold(q, init[1..]).q;
      MatcherStates(m, init);
      ClassStep(m, init, p.index, ch);
      MatcherChar(p, ch);
    }
  }

  lemma FirstClass(m: Matcher, v: seq<byte>)
    requires Known(m) && |v| == 1 && Lower(v[0]) as char == m.word[0]
    ensures ClassOf(m, v) == m.same
  {
    WordSizes(m);
    assert Folded(v) == [m.word[0]];
    assert m.word[..1] == [m.word[0]];
  }

  // ---------- Transfer-Encoding ----------

  lemma SaysFirst(word: string, v: seq<byte>)
    requires word != [] && v != [] && (Says(word, v) || Begins(word, v))
    ensures Lower(v[0]) as char == word[0]
  {
    if Says(word, v) {
      assert Folded(v[..|word|])[0] == Lower(v[0]) as char;
    } else {
      PrefixAt(Folded(v), word, 0);
    }
  }

  lemma EncodingOut(q: Parser, v: seq<byte>)
    requires q.hstate.TransferEncoding? && v != [] && AllHeaderChars(v)
    ensures var o := ValueOut(q, v);
      && o.status.Running? && o.q == q.(state := HeaderValue, hstate := o.q.hstate, index := o.q.index)
      && RecordFlags(o.q).flags == q.flags.(chunked := q.flags.chunked || Says(CHUNKED_WORD, v))
  {
    hide ValueFold, IsHeaderChar, Says, Begins;
    var q1 := OnHeaderValueStart(q, v[0]).q;
    if Lower(v[0]) == 'c' as int {
      WordRead(CHUNKED, q1, v);
    } else {
      assert AllHeaderChars(v[1..]);
      ValueFoldGeneral(q1, v[1..]);
      if Says(CHUNKED_WORD, v) { SaysFirst(CHUNKED_WORD, v); }
    }
  }

  lemma ValueChars(v: seq<byte>)
    requires ValueOk(v)
    ensures AllHeaderChars(v)
  {
  }

  /** A Transfer-Encoding line is always accepted; it makes the message chunked exactly when its value is the word
      `chunked`, in any case, followed by nothing but spaces. */
  lemma EncodingField(q: Parser, f: Field)
    requires FieldOk(f) && NameState(f.name).TransferEncoding?
    ensures Accepts(q, f) && Frame(Settled(q), Settled(AfterField(q, f)))
    ensures var r, old_ := Settled(AfterField(q, f)), Settled(q);
      && r.contentLength == old_.contentLength
      && r.flags == old_.flags.(chunked := old_.flags.chunked || Says(CHUNKED_WORD, f.value))
  {
    hide ValueOut, NameParser, FieldBytes, ValueOk, AllTokens, AllBlank, RecordFlags, AllHeaderChars;
    var b := BeforeValue(q, f);
    if f.value == [] {
      SettledEmpty(AfterField(q, f));
    } else {
      ValueChars(f.value);
      EncodingOut(b, f.value);
      RecordedCount(ValueOut(b, f.value).q, HeaderValueLws, q.nread + |FieldBytes(f)|);
      FlagsOnly(AfterField(q, f));
    }
    FieldFrame(q, f);
  }

  lemma SettledEmpty(q: Parser)
    requires FieldStateOk(q.hstate)
    ensures Settled(q) == q
  {
  }

  lemma RecordedCount(q: Parser, s: State, n: int)
    ensures RecordFlags(q.(state := s, nread := n)) == RecordFlags(q).(state := s, nread := n)
  {
  }

  // ---------- the elements of a Connection value ----------

  const COMMA: byte := ',' as int

  /** The value cut at its commas. */
  function Elements(v: seq<byte>): (es: seq<seq<byte>>)
    ensures es != []
  {
    if v == [] then [[]]
    else
      var es, ch := Elements(v[..|v| - 1]), v[|v| - 1];
      if ch == COMMA then es + [[]] else es[..|es| - 1] + [es[|es| - 1] + [ch]]
  }

  /** The first `n` elements, each with its comma. */
  function Upto(es: seq<seq<byte>>, n: nat): seq<byte>
    requires n <= |es|
  {
    if n == 0 then [] else Upto(es, n - 1) + es[n - 1] + [COMMA]
  }

  lemma {:induction false} UptoSame(a: seq<seq<byte>>, b: seq<seq<byte>>, n: nat)
    requires n <= |a| && n <= |b| && a[..n] == b[..n]
    ensures Upto(a, n) == Upto(b, n)
  {
    if n > 0 {
      assert a[..n - 1] == a[..n][..n - 1] == b[..n - 1];
      assert a[n - 1] == a[..n][n - 1] == b[..n][n - 1];
      UptoSame(a, b, n - 1);
    }
  }

  predicate Plain(e: seq<byte>) { AllHeaderChars(e) && COMMA !in e }

  predicate AllPlain(es: seq<seq<byte>>) { forall i :: 0 <= i < |es| ==> Plain(es[i]) }

  /** Cutting loses nothing. */
  lemma {:induction false} ElementsJoin(v: seq<byte>)
    requires AllHeaderChars(v)
    ensures var es := Elements(v); AllPlain(es) && v == Upto(es, |es| - 1) + es[|es| - 1]
  {
    hide IsHeaderChar;
    if v != [] {
      var init, ch := v[..|v| - 1], v[|v| - 1];
      ElementsJoin(init);
      var es, fs := Elements(init), Elements(v);
      assert v == init + [ch];
      UptoSame(es, fs, |es| - 1);
      if ch == COMMA {
        assert fs[..|es|] == es;
        UptoSame(es, fs, |es|);
        assert fs[|fs| - 1] == [];
      } else {
        assert fs[|fs| - 1] == es[|es| - 1] + [ch];
      }
    }
  }

  // ---------- which elements are heard ----------

  /** Between two elements the matcher looks for a word, lets the next element pass, or has given up. */
  datatype Mode = Listening | Skipping | Deaf

  /** An element without the spaces before it. */
  function Unspaced(e: seq<byte>): seq<byte> { if e != [] && e[0] == SP then Unspaced(e[1..]) else e }

  /** A character that may begin an element: what is a token character after folding. */
  predicate Starts(ch: byte) { Token(Lower(ch)) != 0 }

  /** A beginning of one of the words, cut short by a comma: the comma is taken for a mismatching letter. */
  predicate CutShort(b: seq<byte>) {
    b != [] && (Begins(KEEP_ALIVE_WORD, b) || Begins(CLOSE_WORD, b) || Begins(UPGRADE_WORD, b))
  }

  function After(mode: Mode, e: seq<byte>): Mode {
    match mode
    case Deaf => Deaf
    case Skipping => Listening
    case Listening =>
      var b := Unspaced(e);
      if b == [] || !Starts(b[0]) then Deaf else if CutShort(b) then Skipping else Listening
  }

  /** The first element follows no comma and may begin with anything. */
  function AfterFirst(e: seq<byte>): Mode { if e == [] || CutShort(e) then Skipping else Listening }

  function ModeAt(es: seq<seq<byte>>, i: nat): Mode
    requires i <= |es|
  {
    if i == 0 then Listening else if i == 1 then AfterFirst(es[0]) else After(ModeAt(es, i - 1), es[i - 1])
  }

  predicate Heard(es: seq<seq<byte>>, i: nat)
    requires i < |es|
  {
    ModeAt(es, i).Listening?
  }

  function Text(es: seq<seq<byte>>, i: nat): seq<byte>
    requires i < |es|
  {
    if i == 0 then es[0] else Unspaced(es[i])
  }

  /** The flags after hearing a text. */
  function Told(flags: Flags, b: seq<byte>): Flags {
    flags.(keepAlive := flags.keepAlive || Says(KEEP_ALIVE_WORD, b), close := flags.close || Says(CLOSE_WORD, b),
           connectionUpgrade := flags.connectionUpgrade || Says(UPGRADE_WORD, b))
  }

  function FlagsUpto(flags: Flags, es: seq<seq<byte>>, n: nat): Flags
    requires n <= |es|
  {
    if n == 0 then flags
    else
      var before := FlagsUpto(flags, es, n - 1);
      if Heard(es, n - 1) then Told(before, Text(es, n - 1)) else before
  }

  /** What a Connection value leaves in the flags. */
  function ConnectionFlags(flags: Flags, v: seq<byte>): Flags {
    if v == [] then flags else FlagsUpto(flags, Elements(v), |Elements(v)|)
  }

  // ---------- one element ----------

  /** The matcher's state while it reads an element it listens to. */
  function ElementState(b: seq<byte>): HeaderState
    requires b != []
  {
    var c := Lower(b[0]);
    if c == 'k' as int then ClassOf(KEEP_ALIVE, b)
    else if c == 'c' as int then ClassOf(CLOSE, b)
    else if c == 'u' as int then ClassOf(UPGRADE, b)
    else MatchingConnectionToken
  }

  lemma NotItsLetter(word: string, b: seq<byte>)
    requires word != [] && b != [] && Lower(b[0]) as char != word[0]
    ensures !Says(word, b) && !Begins(word, b)
  {
    if Says(word, b) || Begins(word, b) { SaysFirst(word, b); }
  }

  lemma OnlyItsWord(b: seq<byte>)
    requires b != []
    ensures Lower(b[0]) != 'k' as int ==> !Says(KEEP_ALIVE_WORD, b) && !Begins(KEEP_ALIVE_WORD, b)
    ensures Lower(b[0]) != 'c' as int ==> !Says(CLOSE_WORD, b) && !Begins(CLOSE_WORD, b)
    ensures Lower(b[0]) != 'u' as int ==> !Says(UPGRADE_WORD, b) && !Begins(UPGRADE_WORD, b)
  {
    if Lower(b[0]) != 'k' as int { NotItsLetter(KEEP_ALIVE_WORD, b); }
    if Lower(b[0]) != 'c' as int { NotItsLetter(CLOSE_WORD, b); }
    if Lower(b[0]) != 'u' as int { NotItsLetter(UPGRADE_WORD, b); }
  }

  /** What is recorded at the end of the element, or at its comma. */
  lemma ElementTells(q: Parser, b: seq<byte>)
    requires b != [] && q.hstate == ElementState(b)
    ensures RecordFlags(q) == q.(flags := Told(q.flags, b))
    ensures !LengthState(q.hstate) && (!ConnectionWordSeen(q.hstate) ==> RecordFlags(q) == q)
  {
    OnlyItsWord(b);
    OneOrOther(KEEP_ALIVE_WORD, b);
    OneOrOther(CLOSE_WORD, b);
    OneOrOther(UPGRADE_WORD, b);
    hide Says, Begins, Lower;
  }

  lemma ElementComma(b: seq<byte>, index: int)
    requires b != []
    ensures ValueHeaderState(ElementState(b), index, COMMA)
         == if CutShort(b) then MatchingConnectionToken else MatchingConnectionTokenStart
    ensures !CutShort(b) ==> ValueIndex(ElementState(b), index, COMMA) == 0
  {
    OnlyItsWord(b);
    OneOrOther(KEEP_ALIVE_WORD, b);
    OneOrOther(CLOSE_WORD, b);
    OneOrOther(UPGRADE_WORD, b);
    NoCommaInWords(index + 1);
    hide Says, Begins;
  }

  lemma NoCommaInWords(i: int)
    ensures 0 <= i < |KEEP_ALIVE_WORD| ==> KEEP_ALIVE_WORD[i] != ','
    ensures 0 <= i < |CLOSE_WORD| ==> CLOSE_WORD[i] != ','
    ensures 0 <= i < |UPGRADE_WORD| ==> UPGRADE_WORD[i] != ','
    ensures Lower(COMMA) == COMMA
  {
  }

  lemma {:induction false} TokenFold(q: Parser, s: seq<byte>)
    requires q.hstate.MatchingConnectionToken? && Plain(s)
    ensures ValueFold(q, s) == Out(q, [], Running)
  {
    hide IsHeaderChar;
    if s != [] {
      TokenFold(q, s[..|s| - 1]);
      MatcherChar(q, s[|s| - 1]);
    }
  }

  /** From the element's first character on. */
  lemma ElementRead(q: Parser, b: seq<byte>)
    requires b != [] && Plain(b) && q.index == 0 && q.hstate == ElementState(b[..1])
    ensures var o := ValueFold(q, b[1..]);
      o == Out(q.(hstate := ElementState(b), index := o.q.index), [], Running)
  {
    hide ValueFold, IsHeaderChar, ClassOf;
    assert b[..1] == [b[0]] && b[..1][0] == b[0];
    var c := Lower(b[0]);
    if c == 'k' as int {
      FirstClass(KEEP_ALIVE, b[..1]);
      WordRead(KEEP_ALIVE, q, b);
    } else if c == 'c' as int {
      FirstClass(CLOSE, b[..1]);
      WordRead(CLOSE, q, b);
    } else if c == 'u' as int {
      FirstClass(UPGRADE, b[..1]);
      WordRead(UPGRADE, q, b);
    } else {
      TokenFold(q, b[1..]);
    }
  }

  /** The first character of an element after a comma. */
  lemma StartChar(q: Parser, ch: byte)
    requires q.hstate.MatchingConnectionTokenStart? && q.index == 0 && IsHeaderChar(ch) && ch != COMMA
    ensures ValueChar(q, ch) == Out(q.(hstate := if ch == SP then MatchingConnectionTokenStart
                                                 else if Starts(ch) then ElementState([ch]) else General), [], Running)
  {
    MatcherChar(q, ch);
    FoldedStart(ch);
    hide IsHeaderChar, Token, Says, Begins, Lower;
    if Lower(ch) == 'k' as int {
      FirstClass(KEEP_ALIVE, [ch]);
    } else if Lower(ch) == 'c' as int {
      FirstClass(CLOSE, [ch]);
    } else if Lower(ch) == 'u' as int {
      FirstClass(UPGRADE, [ch]);
    }
  }

  lemma FoldedStart(ch: byte)
    requires IsHeaderChar(ch)
    ensures Lower(ch) != TAB && (Lower(ch) == SP <==> ch == SP) && !Starts(SP)
    ensures Lower(ch) in {'k' as int, 'c' as int, 'u' as int} ==> Starts(ch)
  {
  }

  // ---------- one element after another ----------

  predicate ModeOk(q: Parser, mode: Mode) {
    match mode
    case Listening => q.hstate.MatchingConnectionTokenStart? && q.index == 0
    case Skipping => q.hstate.MatchingConnectionToken?
    case Deaf => q.hstate.General?
  }

  /** Where an element after a comma leaves the matcher. */
  function ReadState(mode: Mode, e: seq<byte>): HeaderState {
    match mode
    case Deaf => General
    case Skipping => MatchingConnectionToken
    case Listening =>
      var b := Unspaced(e);
      if b == [] then MatchingConnectionTokenStart else if Starts(b[0]) then ElementState(b) else General
  }

  lemma FoldOne(q: Parser, ch: byte)
    ensures ValueFold(q, [ch]) == ValueChar(q, ch)
  {
    assert [ch][..0] == [];
  }

  lemma {:induction false} ListeningRead(q: Parser, e: seq<byte>)
    requires ModeOk(q, Listening) && Plain(e)
    ensures var o := ValueFold(q, e);
      && o == Out(q.(hstate := ReadState(Listening, e), index := o.q.index), [], Running)
      && (ReadState(Listening, e).MatchingConnectionTokenStart? ==> o.q.index == 0)
  {
    hide ValueChar, IsHeaderChar, Starts, ElementState;
    if e != [] {
      var ch, rest := e[0], e[1..];
      assert e == [ch] + rest;
      assert Plain(rest);
      ValueFoldConcat(q, [ch], rest);
      FoldOne(q, ch);
      StartChar(q, ch);
      hide ValueFold;
      var q1 := ValueChar(q, ch).q;
      if ch == SP {
        ListeningRead(q1, rest);
      } else if Starts(ch) {
        assert e[..1] == [ch];
        ElementRead(q1, e);
        NotStart(e);
      } else {
        ValueFoldGeneral(q1, rest);
      }
    }
  }

  lemma NotStart(b: seq<byte>)
    requires b != []
    ensures !ElementState(b).MatchingConnectionTokenStart?
  {
    hide Says, Begins;
  }

  lemma ModeRead(q: Parser, mode: Mode, e: seq<byte>)
    requires ModeOk(q, mode) && Plain(e)
    ensures var o := ValueFold(q, e);
      && o == Out(q.(hstate := ReadState(mode, e), index := o.q.index), [], Running)
      && (ReadState(mode, e).MatchingConnectionTokenStart? ==> o.q.index == 0)
  {
    hide ValueFold, IsHeaderChar;
    match mode
    case Listening => ListeningRead(q, e);
    case Skipping => TokenFold(q, e);
    case Deaf => ValueFoldGeneral(q, e);
  }

  lemma NothingSaid(flags: Flags, b: seq<byte>)
    requires b == [] || !Starts(b[0])
    ensures Told(flags, b) == flags && !CutShort(b)
  {
    if b != [] { OnlyItsWord(b); }
  }

  /** What the flags become once the element is over. */
  lemma ModeTells(q: Parser, mode: Mode, e: seq<byte>)
    requires q.hstate == ReadState(mode, e)
    ensures RecordFlags(q) == q.(flags := if mode.Listening? then Told(q.flags, Unspaced(e)) else q.flags)
    ensures !LengthState(q.hstate) && (!ConnectionWordSeen(q.hstate) ==> RecordFlags(q) == q)
  {
    var b := Unspaced(e);
    hide Unspaced, Told, Starts, ElementState;
    if mode.Listening? {
      if b == [] || !Starts(b[0]) { NothingSaid(q.flags, b); } else { ElementTells(q, b); }
    }
  }

  lemma ModeComma(q: Parser, mode: Mode, e: seq<byte>)
    requires q.hstate == ReadState(mode, e) && (q.hstate.MatchingConnectionTokenStart? ==> q.index == 0)
    ensures var o := ValueChar(q, COMMA);
      && o.status.Running? && ModeOk(o.q, After(mode, e))
      && o.q == q.(hstate := o.q.hstate, index := o.q.index,
                   flags := if mode.Listening? then Told(q.flags, Unspaced(e)) else q.flags)
  {
    ModeTells(q, mode, e);
    MatcherChar(q, COMMA);
    CommaStates(mode, e, q.index);
    hide ValueChar, RecordFlags, ValueHeaderState, ValueIndex, ReadState, After, Told, Unspaced, LengthState;
  }

  lemma CommaStates(mode: Mode, e: seq<byte>, index: int)
    ensures var h := ReadState(mode, e);
      match After(mode, e)
      case Listening =>
        ValueHeaderState(h, index, COMMA).MatchingConnectionTokenStart? && ValueIndex(h, index, COMMA) == 0
      case Skipping => ValueHeaderState(h, index, COMMA).MatchingConnectionToken?
      case Deaf => ValueHeaderState(h, index, COMMA).General?
  {
    var b := Unspaced(e);
    hide Unspaced, Starts, ElementState, CutShort;
    if mode.Listening? && b != [] && Starts(b[0]) {
      ElementComma(b, index);
    }
  }

  // ---------- the whole value ----------

  lemma FirstStart(q: Parser, v: seq<byte>)
    requires q.hstate.Connection? && v != []
    ensures var o := OnHeaderValueStart(q, v[0]);
      && o.status.Running? && o.q == q.(state := HeaderValue, index := 0, hstate := ElementState(v[..1]))
  {
    assert v[..1] == [v[0]];
    if Lower(v[0]) == 'k' as int {
      FirstClass(KEEP_ALIVE, v[..1]);
    } else if Lower(v[0]) == 'c' as int {
      FirstClass(CLOSE, v[..1]);
    } else if Lower(v[0]) == 'u' as int {
      FirstClass(UPGRADE, v[..1]);
    }
    hide ClassOf;
  }

  /** A parser that has read part of a Connection value: only the matcher and the flags have moved. */
  predicate ReadInto(q: Parser, r: Parser, flags: Flags) {
    r == q.(state := HeaderValue, hstate := r.hstate, index := r.index, flags := flags)
  }

  lemma FirstRead(q: Parser, e: seq<byte>)
    requires q.hstate.Connection? && e != [] && Plain(e)
    ensures var o := ValueOut(q, e); o.status.Running? && o.q.hstate == ElementState(e) && ReadInto(q, o.q, q.flags)
  {
    hide ValueFold, IsHeaderChar, ElementState;
    FirstStart(q, e);
    ElementRead(OnHeaderValueStart(q, e[0]).q, e);
  }

  lemma OutConcat(q: Parser, s: seq<byte>, t: seq<byte>)
    requires s != [] && ValueOut(q, s).status.Running?
    ensures ValueOut(q, s + t) == ValueFold(ValueOut(q, s).q, t)
  {
    hide ValueFold, OnHeaderValueStart;
    assert (s + t)[1..] == s[1..] + t && (s + t)[0] == s[0];
    ValueFoldConcat(OnHeaderValueStart(q, s[0]).q, s[1..], t);
  }

  lemma FirstComma(q: Parser, e: seq<byte>)
    requires q.hstate.Connection? && Plain(e)
    ensures var o := ValueOut(q, e + [COMMA]);
      o.status.Running? && ModeOk(o.q, AfterFirst(e)) && ReadInto(q, o.q, Told(q.flags, e))
  {
    if e == [] {
      assert e + [COMMA] == [COMMA] && [COMMA][1..] == [] && [COMMA][..1] == [COMMA];
      FirstStart(q, [COMMA]);
      NothingSaid(q.flags, e);
    } else {
      hide ValueFold, ElementState, CutShort, Told, OnHeaderValueStart, RecordFlags;
      FirstRead(q, e);
      OutConcat(q, e, [COMMA]);
      var r := ValueOut(q, e).q;
      hide ValueOut;
      FoldOne(r, COMMA);
      ElementTells(r, e);
      MatcherChar(r, COMMA);
      ElementComma(e, r.index);
    }
  }

  lemma {:induction false} ElementsRead(q: Parser, es: seq<seq<byte>>, n: nat)
    requires q.hstate.Connection? && AllPlain(es) && 1 <= n <= |es|
    ensures var o := ValueOut(q, Upto(es, n));
      o.status.Running? && ModeOk(o.q, ModeAt(es, n)) && ReadInto(q, o.q, FlagsUpto(q.flags, es, n))
  {
    hide ValueFold, Told, After, ModeOk, ValueOut, Plain;
    if n == 1 {
      assert Upto(es, 1) == es[0] + [COMMA];
      FirstComma(q, es[0]);
      assert FlagsUpto(q.flags, es, 1) == Told(q.flags, es[0]);
    } else {
      ElementsRead(q, es, n - 1);
      var s, e := Upto(es, n - 1), es[n - 1];
      assert Upto(es, n) == s + (e + [COMMA]);
      OutConcat(q, s, e + [COMMA]);
      NextElement(ValueOut(q, s).q, ModeAt(es, n - 1), e);
    }
  }

  lemma NextElement(q: Parser, mode: Mode, e: seq<byte>)
    requires ModeOk(q, mode) && Plain(e)
    ensures var o := ValueFold(q, e + [COMMA]);
      && o.status.Running? && ModeOk(o.q, After(mode, e))
      && o.q == q.(hstate := o.q.hstate, index := o.q.index,
                   flags := if mode.Listening? then Told(q.flags, Unspaced(e)) else q.flags)
  {
    hide ValueFold, Told, After, ValueChar, ReadState, Unspaced, Plain;
    ModeRead(q, mode, e);
    ValueFoldConcat(q, e, [COMMA]);
    FoldOne(ValueFold(q, e).q, COMMA);
    ModeComma(ValueFold(q, e).q, mode, e);
  }

  /** The whole value, once its line is over. */
  lemma ConnectionOut(q: Parser, v: seq<byte>)
    requires q.hstate.Connection? && v != [] && AllHeaderChars(v)
    ensures var o := ValueOut(q, v);
      o.status.Running? && ReadInto(q, RecordFlags(o.q), ConnectionFlags(q.flags, v))
  {
    hide ValueFold, ValueOut, Told, ModeOk, Plain, RecordFlags, Elements, ReadState, ElementState, Unspaced;
    ElementsJoin(v);
    var es := Elements(v);
    var n := |es| - 1;
    if n == 0 {
      assert v == es[0];
      FirstRead(q, v);
      ElementTells(ValueOut(q, v).q, v);
      assert FlagsUpto(q.flags, es, 1) == Told(q.flags, v);
    } else {
      ElementsRead(q, es, n);
      var r, mode := ValueOut(q, Upto(es, n)).q, ModeAt(es, n);
      assert Upto(es, n) != [];
      OutConcat(q, Upto(es, n), es[n]);
      ModeRead(r, mode, es[n]);
      ModeTells(ValueFold(r, es[n]).q, mode, es[n]);
    }
  }

  /** A Connection line is always accepted and leaves in the flags exactly the words among the elements heard. */
  lemma ConnectionField(q: Parser, f: Field)
    requires FieldOk(f) && NameState(f.name).Connection?
    ensures Accepts(q, f) && Frame(Settled(q), Settled(AfterField(q, f)))
    ensures var r := Settled(AfterField(q, f));
      r.contentLength == Settled(q).contentLength && r.flags == ConnectionFlags(Settled(q).flags, f.value)
  {
    hide ValueOut, NameParser, FieldBytes, ValueOk, AllTokens, AllBlank, RecordFlags, AllHeaderChars, ConnectionFlags;
    var b := BeforeValue(q, f);
    if f.value == [] {
      SettledEmpty(AfterField(q, f));
      assert ConnectionFlags(b.flags, []) == b.flags by { NoElements(b.flags); }
    } else {
      ValueChars(f.value);
      ConnectionOut(b, f.value);
      RecordedCount(ValueOut(b, f.value).q, HeaderValueLws, q.nread + |FieldBytes(f)|);
    }
    FieldFrame(q, f);
  }

  lemma NoElements(flags: Flags)
    ensures ConnectionFlags(flags, []) == flags
  {
  }

  // ---------- which options take effect ----------

  /** One of the first `n` elements is heard to say the word. */
  predicate HeardUpto(es: seq<seq<byte>>, n: nat, word: string)
    requires n <= |es|
  {
    exists i :: 0 <= i < n && Heard(es, i) && Says(word, Text(es, i))
  }

  lemma {:induction false} FlagsHeard(flags: Flags, es: seq<seq<byte>>, n: nat)
    requires n <= |es|
    ensures var r := FlagsUpto(flags, es, n);
      r == flags.(keepAlive := flags.keepAlive || HeardUpto(es, n, KEEP_ALIVE_WORD),
                  close := flags.close || HeardUpto(es, n, CLOSE_WORD),
                  connectionUpgrade := flags.connectionUpgrade || HeardUpto(es, n, UPGRADE_WORD))
  {
    hide Says;
    if n > 0 {
      FlagsHeard(flags, es, n - 1);
      HeardMore(es, n, KEEP_ALIVE_WORD);
      HeardMore(es, n, CLOSE_WORD);
      HeardMore(es, n, UPGRADE_WORD);
      hide HeardUpto;
    }
  }

  lemma HeardMore(es: seq<seq<byte>>, n: nat, word: string)
    requires 0 < n <= |es|
    ensures HeardUpto(es, n, word) <==>
      HeardUpto(es, n - 1, word) || (Heard(es, n - 1) && Says(word, Text(es, n - 1)))
  {
    hide Says, Heard;
  }

  /** A flag is set by a Connection value exactly when one of the elements heard is its word. */
  lemma OptionTakesEffect(flags: Flags, v: seq<byte>)
    requires v != []
    ensures var r, es := ConnectionFlags(flags, v), Elements(v);
      && (r.keepAlive <==> flags.keepAlive || HeardUpto(es, |es|, "keep-alive"))
      && (r.close <==> flags.close || HeardUpto(es, |es|, "close"))
      && (r.connectionUpgrade <==> flags.connectionUpgrade || HeardUpto(es, |es|, "upgrade"))
      && r == flags.(keepAlive := r.keepAlive, close := r.close, connectionUpgrade := r.connectionUpgrade)
  {
    FlagsHeard(flags, Elements(v), |Elements(v)|);
    hide HeardUpto;
  }

  /** An element that leaves the next one audible. */
  predicate Clear(es: seq<seq<byte>>, i: nat)
    requires i < |es|
  {
    var b := Text(es, i);
    b != [] && !CutShort(b) && (i > 0 ==> Starts(b[0]))
  }

  predicate AllHeard(es: seq<seq<byte>>, n: nat)
    requires n <= |es|
  {
    forall i :: 0 <= i < n ==> Heard(es, i)
  }

  predicate AllClear(es: seq<seq<byte>>, n: nat)
    requires n <= |es|
  {
    forall i :: 0 <= i < n ==> Clear(es, i)
  }

  lemma HeardAfterClear(es: seq<seq<byte>>, n: nat)
    requires 0 < n < |es| && Heard(es, n - 1)
    ensures Heard(es, n) <==> Clear(es, n - 1)
  {
    hide CutShort, Starts, Unspaced;
  }

  /** Every element is heard exactly when each but the last is not empty, not a cut-short word and, after the first,
      begins like a token. */
  lemma {:induction false} AllHeardExactlyWhen(es: seq<seq<byte>>, n: nat)
    requires 0 < n <= |es|
    ensures AllHeard(es, n) <==> AllClear(es, n - 1)
  {
    if n == 1 {
      assert Heard(es, 0);
    } else {
      AllHeardExactlyWhen(es, n - 1);
      hide Heard, Clear;
      if AllHeard(es, n - 1) {
        assert Heard(es, n - 2);
        HeardAfterClear(es, n - 1);
        assert AllHeard(es, n) <==> Heard(es, n - 1);
        assert AllClear(es, n - 1) <==> AllClear(es, n - 2) && Clear(es, n - 2);
      } else {
        assert !AllClear(es, n - 1);
      }
    }
  }

  lemma {:induction false} ElementsAppend(v: seq<byte>, w: seq<byte>)
    requires COMMA !in w
    ensures Elements(v + [COMMA] + w) == Elements(v) + [w]
    decreases |w|
  {
    var u := v + [COMMA] + w;
    if w == [] {
      assert u[..|u| - 1] == v;
    } else {
      var init := w[..|w| - 1];
      assert u[..|u| - 1] == v + [COMMA] + init;
      ElementsAppend(v, init);
      assert w == init + [w[|w| - 1]];
    }
  }

  lemma {:induction false} ElementsOne(v: seq<byte>)
    requires COMMA !in v
    ensures Elements(v) == [v]
  {
    if v != [] {
      ElementsOne(v[..|v| - 1]);
      assert v == v[..|v| - 1] + [v[|v| - 1]];
    }
  }

  /** A beginning of one of the words, directly followed by a comma, hides whatever stands behind the comma. */
  lemma CutShortHidesNext(flags: Flags, a: seq<byte>, b: seq<byte>)
    requires CutShort(a) && COMMA !in a && COMMA !in b
    ensures ConnectionFlags(flags, a + [COMMA] + b) == flags
  {
    ElementsOne(a);
    ElementsAppend(a, b);
    var es := [a] + [b];
    assert Elements(a + [COMMA] + b) == es;
    OnlyItsWord(a);
    OneOrOther(KEEP_ALIVE_WORD, a);
    OneOrOther(CLOSE_WORD, a);
    OneOrOther(UPGRADE_WORD, a);
    hide Says, Begins, Elements;
    assert FlagsUpto(flags, es, 1) == Told(FlagsUpto(flags, es, 0), a);
    assert FlagsUpto(flags, es, 2) == FlagsUpto(flags, es, 1);
  }

  /** `Connection: k,close` does not close the connection. */
  lemma CloseIsMissed(flags: Flags)
    ensures var close: seq<byte> := ['c' as int, 'l' as int, 'o' as int, 's' as int, 'e' as int];
      Says("close", close) && ConnectionFlags(flags, ['k' as int] + [COMMA] + close) == flags
  {
    var close: seq<byte> := ['c' as int, 'l' as int, 'o' as int, 's' as int, 'e' as int];
    assert close[..5] == close;
    assert Folded(close) == "close";
    var k: seq<byte> := ['k' as int];
    assert Folded(k) == "k" && KEEP_ALIVE_WORD[..1] == "k";
    CutShortHidesNext(flags, k, close);
  }
}
