/**
 jsmn.h as it runs: a parser object and a token array changed in place, or no array when tokens are
 only counted.
 */
module Jsmn {
  import opened Basics
  import opened JsonLexer
  import opened JsonParser

  class Parser {
    var pos: nat
    var toknext: nat
    var toksuper: int

    /** jsmn_init */
    constructor ()
      ensures pos == 0 && toknext == 0 && toksuper == -1
    {
      pos, toknext, toksuper := 0, 0, -1;
    }

    predicate Room(tokens: array?<Token>, num: nat)
      reads `toknext
    {
      tokens != null ==> num <= tokens.Length && toknext <= tokens.Length
    }

    /** The parser and the tokens made so far, as a value. */
    ghost function Abstract(tokens: array<Token>): Snapshot
      requires toknext <= tokens.Length
      reads `pos, `toknext, `toksuper, tokens
    {
      Snapshot(pos, tokens[..toknext], toksuper)
    }

    /** jsmn_alloc_token and jsmn_fill_token: one more token, if there is room. */
    method AddToken(tokens: array<Token>, num: nat, t: Token) returns (ok: bool)
      requires Room(tokens, num)
      modifies `toknext, tokens
      ensures ok <==> old(toknext) < num
      ensures ok ==> toknext == old(toknext) + 1 <= tokens.Length && tokens[..toknext] == old(tokens[..toknext]) + [t]
      ensures !ok ==> toknext == old(toknext) && tokens[..] == old(tokens[..])
    {
      if toknext >= num {
        return false;
      }
      tokens[toknext] := t;
      toknext := toknext + 1;
      return true;
    }

    /** jsmn_parse_primitive; on failure the position is put back. */
    method ParsePrimitive(js: seq<char>, tokens: array?<Token>, num: nat) returns (r: Option<Error>)
      requires Room(tokens, num) && !AtEnd(js, pos) && !Delimiter(js[pos])
      modifies `pos, `toknext, tokens
      ensures Room(tokens, num)
      ensures var e := PrimitiveEnd(js, old(pos));
        if e.Bad? then r == Some(e.error) && pos == old(pos) && toknext == old(toknext)
        else if tokens == null then r == None && pos == e.at - 1 && toknext == old(toknext)
        else if old(toknext) >= num then r == Some(NoMem) && pos == old(pos) && toknext == old(toknext)
        else r == None && pos == e.at - 1 && toknext == old(toknext) + 1
      ensures r.Some? && tokens != null ==> tokens[..] == old(tokens[..])
      ensures r.None? && tokens != null ==>
        tokens[..toknext] == old(tokens[..toknext]) + [Token(Primitive, old(pos), PrimitiveEnd(js, old(pos)).at, 0)]
    {
      var start := pos;
      while pos < |js| && js[pos] != '\0'
        invariant start <= pos <= |js| && PrimitiveEnd(js, pos) == PrimitiveEnd(js, start)
        modifies `pos
      {
        if Delimiter(js[pos]) {
          break;
        }
        if !Printable(js[pos]) {
          pos := start;
          return Some(Inval);
        }
        pos := pos + 1;
      }
      if tokens == null {
        pos := pos - 1;
        return None;
      }
      var ok := AddToken(tokens, num, Token(Primitive, start, pos, 0));
      if !ok {
        pos := start;
        return Some(NoMem);
      }
      pos := pos - 1;
      return None;
    }

    /** The digits after \u. */
    method SkipHex(js: seq<char>) returns (ok: bool)
      modifies `pos
      ensures var h := HexEnd(js, old(pos), 4); if h.Found? then ok && pos == h.at else !ok
    {
      var i := 0;
      while i < 4 && pos < |js| && js[pos] != '\0'
        invariant 0 <= i <= 4 && HexEnd(js, pos, 4 - i) == HexEnd(js, old(pos), 4)
        decreases 4 - i
      {
        if !Hex(js[pos]) {
          return false;
        }
        pos := pos + 1;
        i := i + 1;
      }
      return true;
    }

    /** The loop of jsmn_parse_string, up to the closing quote. */
    method ScanString(js: seq<char>) returns (r: Option<Error>)
      modifies `pos
      ensures var e := StringEnd(js, old(pos)); if e.Bad? then r == Some(e.error) else r == None && pos == e.at
    {
      while pos < |js| && js[pos] != '\0'
        invariant StringEnd(js, pos) == StringEnd(js, old(pos))
        decreases |js| - pos
      {
        var c := js[pos];
        if c == '"' {
          return None;
        }
        if c == '\\' && pos + 1 < |js| {
          pos := pos + 1;
          if js[pos] == 'u' {
            pos := pos + 1;
            var ok := SkipHex(js);
            if !ok {
              return Some(Inval);
            }
            pos := pos - 1;
          } else if !SimpleEscape(js[pos]) {
            return Some(Inval);
          }
        }
        pos := pos + 1;
      }
      return Some(Part);
    }

    /** jsmn_parse_string; on failure the position is put back. */
    method ParseString(js: seq<char>, tokens: array?<Token>, num: nat) returns (r: Option<Error>)
      requires Room(tokens, num)
      modifies `pos, `toknext, tokens
      ensures Room(tokens, num)
      ensures var e := StringEnd(js, old(pos) + 1);
        if e.Bad? then r == Some(e.error) && pos == old(pos) && toknext == old(toknext)
        else if tokens == null then r == None && pos == e.at && toknext == old(toknext)
        else if old(toknext) >= num then r == Some(NoMem) && pos == old(pos) && toknext == old(toknext)
        else r == None && pos == e.at && toknext == old(toknext) + 1
      ensures r.Some? && tokens != null ==> tokens[..] == old(tokens[..])
      ensures r.None? && tokens != null ==>
        tokens[..toknext] == old(tokens[..toknext]) + [Token(String, old(pos) + 1, StringEnd(js, old(pos) + 1).at, 0)]
    {
      var start := pos;
      pos := pos + 1;
      r := ScanString(js);
      if r.Some? {
        pos := start;
        return;
      }
      if tokens == null {
        return;
      }
      var ok := AddToken(tokens, num, Token(String, start + 1, pos, 0));
      if !ok {
        pos := start;
        r := Some(NoMem);
      }
    }

    /** The search for the last open token at or below `top`. */
    method FindOpen(tokens: array<Token>, top: int) returns (i: int)
      requires -1 <= top < tokens.Length
      ensures i == LastOpen(tokens[..], top + 1)
    {
      i := top;
      while i >= 0
        invariant -1 <= i <= top && LastOpen(tokens[..], i + 1) == LastOpen(tokens[..], top + 1)
      {
        if tokens[i].start != -1 && tokens[i].end == -1 {
          return;
        }
        i := i - 1;
      }
    }

    /** One more element for the token that is counting. */
    method GrowSuper(tokens: array<Token>)
      requires toknext <= tokens.Length && -1 <= toksuper < toknext
      modifies tokens
      ensures tokens[..toknext] == Grow(old(tokens[..toknext]), toksuper)
    {
      if toksuper != -1 {
        ghost var was := tokens[..toknext];
        tokens[toksuper] := tokens[toksuper].(size := tokens[toksuper].size + 1);
        assert tokens[..toknext] == was[toksuper := was[toksuper].(size := was[toksuper].size + 1)];
      }
    }

    /** An opening bracket in token mode. */
    method OpenContainer(tokens: array<Token>, num: nat, k: Enclosing) returns (r: Option<Error>)
      requires Room(tokens, num) && Usable(Abstract(tokens))
      modifies `toknext, `toksuper, tokens
      ensures Room(tokens, num)
      ensures match Accept(old(Abstract(tokens)), Open(k), pos, num)
        case Stop(e) => r == Some(e) && Abstract(tokens) == old(Abstract(tokens))
        case Next(st) => r == None && Abstract(tokens) == st
    {
      ghost var st := Abstract(tokens);
      if toknext >= num {
        assert tokens[..toknext] == st.toks;
        return Some(NoMem);
      }
      GrowSuper(tokens);
      ghost var grown := tokens[..toknext];
      var ok := AddToken(tokens, num, Token(k, pos, -1, 0));
      toksuper := toknext - 1;
      assert tokens[..toknext] == grown + [Token(k, pos, -1, 0)];
      return None;
    }

    /** A closing bracket in token mode. */
    method CloseContainer(tokens: array<Token>, num: nat, k: Enclosing) returns (r: Option<Error>)
      requires Room(tokens, num) && Usable(Abstract(tokens))
      modifies `toksuper, tokens
      ensures match Accept(old(Abstract(tokens)), Close(k), pos, num)
        case Stop(e) => r == Some(e) && Abstract(tokens) == old(Abstract(tokens))
        case Next(st) => r == None && Abstract(tokens) == st
    {
      ghost var toks := tokens[..toknext];
      var i := FindOpen(tokens, toknext - 1);
      LastOpenLocal(tokens[..], toks, toknext);
      if i == -1 || tokens[i].kind != k {
        return Some(Inval);
      }
      tokens[i] := tokens[i].(end := pos + 1);
      ghost var closed := tokens[..toknext];
      assert closed == toks[i := toks[i].(end := pos + 1)];
      toksuper := FindOpen(tokens, i);
      LastOpenLocal(tokens[..], closed, i + 1);
      return None;
    }

    /**
     A comma in token mode.  The code looks for an open token that is a container; only containers are
     ever open.
     */
    method AfterComma(tokens: array<Token>)
      requires toknext <= tokens.Length && Usable(Abstract(tokens))
      modifies `toksuper
      ensures Accept(old(Abstract(tokens)), Comma, pos, 0) == Next(Abstract(tokens))
    {
      if toksuper != -1 && !Container(tokens[toksuper].kind) {
        var i := FindOpen(tokens, toknext - 1);
        LastOpenLocal(tokens[..], tokens[..toknext], toknext);
        if i != -1 {
          toksuper := i;
        }
      }
    }

    /** A character of jsmn_parse without a token array; the position stays on its last character. */
    method CountTurn(js: seq<char>) returns (r: Option<Error>, made: bool)
      requires !AtEnd(js, pos)
      modifies `pos, `toknext, `toksuper
      ensures toknext == old(toknext)
      ensures match Lex(js, old(pos))
        case Fail(e) => r == Some(e)
        case Item(x, next) => r == None && pos == next - 1 && made == MakesToken(x)
    {
      var c := js[pos];
      r, made := None, false;
      if c == '{' || c == '[' {
        made := true;
      } else if c == '"' {
        r := ParseString(js, null, 0);
        made := true;
      } else if c == ':' {
        toksuper := toknext - 1;
      } else if !Delimiter(c) {
        r := ParsePrimitive(js, null, 0);
        made := true;
      }
    }

    /** A string or primitive in token mode is counted by the token that is counting. */
    method TokenValue(js: seq<char>, tokens: array<Token>, num: nat) returns (r: Option<Error>)
      requires Room(tokens, num) && Usable(Abstract(tokens)) && !AtEnd(js, pos)
      requires js[pos] == '"' || (!Delimiter(js[pos]) && js[pos] != '{' && js[pos] != '[')
      modifies `pos, `toknext, tokens
      ensures Room(tokens, num)
      ensures match Step(js, old(Abstract(tokens)), num)
        case Stop(e) => r == Some(e) && Abstract(tokens) == old(Abstract(tokens))
        case Next(st) => r == None && st.pos > 0 && Abstract(tokens) == st.(pos := st.pos - 1)
    {
      hide PrimitiveEnd, StringEnd;
      ghost var toks := tokens[..toknext];
      if js[pos] == '"' {
        r := ParseString(js, tokens, num);
      } else {
        r := ParsePrimitive(js, tokens, num);
      }
      if r.Some? {
        assert tokens[..toknext] == toks;
        return;
      }
      GrowSuper(tokens);
    }

    /** A character of jsmn_parse in token mode; the position stays on its last character. */
    method TokenTurn(js: seq<char>, tokens: array<Token>, num: nat) returns (r: Option<Error>, made: bool)
      requires Room(tokens, num) && Usable(Abstract(tokens)) && !AtEnd(js, pos)
      modifies `pos, `toknext, `toksuper, tokens
      ensures Room(tokens, num)
      ensures match Step(js, old(Abstract(tokens)), num)
        case Stop(e) => r == Some(e) && Abstract(tokens) == old(Abstract(tokens))
        case Next(st) =>
          && r == None && st.pos > 0 && Abstract(tokens) == st.(pos := st.pos - 1)
          && made == (toknext != old(toknext))
      ensures toknext == old(toknext) || toknext == old(toknext) + 1
    {
      hide PrimitiveEnd, StringEnd, LastOpen, Grow;
      var c := js[pos];
      r, made := None, false;
      ghost var st := Abstract(tokens);
      if c == '{' || c == '[' {
        var k: Enclosing := if c == '{' then Object else Array;
        r := OpenContainer(tokens, num, k);
        made := true;
      } else if c == '}' || c == ']' {
        r := CloseContainer(tokens, num, if c == '}' then Object else Array);
      } else if c == ':' {
        toksuper := toknext - 1;
      } else if c == ',' {
        AfterComma(tokens);
      } else if !Space(c) {
        r := TokenValue(js, tokens, num);
        made := true;
      }
    }

    /** What jsmn_parse has done so far, in either mode. */
    ghost predicate OnTrack(js: seq<char>, tokens: array?<Token>, num: nat, count: nat, was: Snapshot, counted: Result)
      requires tokens != null ==> toknext <= tokens.Length && Usable(was)
      reads `pos, `toknext, `toksuper, tokens
    {
      if tokens == null then CountFrom(js, pos, count) == counted
      else
        && Usable(Abstract(tokens)) && count == toknext
        && JsonParser.Parse(js, Abstract(tokens), num) == JsonParser.Parse(js, was, num)
    }

    /** jsmn_parse: with an array, the parse from where the parser stands; without one, the count. */
    method Parse(js: seq<char>, tokens: array?<Token>, num: nat) returns (r: Result)
      requires Room(tokens, num) && (tokens != null ==> Usable(Abstract(tokens)))
      modifies `pos, `toknext, `toksuper, tokens
      ensures Room(tokens, num)
      ensures tokens != null ==> (r, Abstract(tokens)) == JsonParser.Parse(js, old(Abstract(tokens)), num)
      ensures tokens == null ==> r == CountFrom(js, old(pos), old(toknext)) && toknext == old(toknext)
    {
      hide Lex, Accept, Usable;
      ghost var was := if tokens == null then START else Abstract(tokens);
      ghost var counted := CountFrom(js, pos, toknext);
      var count := toknext;
      while pos < |js| && js[pos] != '\0'
        invariant Room(tokens, num) && OnTrack(js, tokens, num, count, was, counted)
        invariant tokens == null ==> toknext == old(toknext)
        decreases |js| - pos
      {
        var e, made;
        if tokens == null {
          e, made := CountTurn(js);
        } else {
          e, made := TokenTurn(js, tokens, num);
        }
        if e.Some? {
          return Failed(e.value);
        }
        if made {
          count := count + 1;
        }
        pos := pos + 1;
      }
      if tokens != null {
        var i := FindOpen(tokens, toknext - 1);
        LastOpenLocal(tokens[..], tokens[..toknext], toknext);
        if i != -1 {
          return Failed(Part);
        }
      }
      return Count(count);
    }
  }

  lemma {:induction false} LastOpenLocal(s: seq<Token>, t: seq<Token>, n: nat)
    requires n <= |t| <= |s| && s[..|t|] == t
    ensures LastOpen(s, n) == LastOpen(t, n)
  {
    if n > 0 {
      LastOpenLocal(s, t, n - 1);
      assert s[n - 1] == t[n - 1];
    }
  }
}
