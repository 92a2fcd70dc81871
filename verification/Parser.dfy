// The recursive-descent parser: a cursor moving over the source text. Every method
// reads exactly what the grammar function of the text at the cursor reads, and on
// a failed optional match puts the cursor back.

module Parser {
  import opened Common
  import opened Ast
  import opened Lexer
  import opened Grammar

  /** What a method returns and where it leaves the cursor, against the grammar. */
  ghost predicate Reads<T>(spec: Result<Parsed<T>>, r: Result<T>, rest: string) {
    if spec.Err? then r == Err(spec.error) else r == Ok(spec.value.value) && rest == spec.value.rest
  }

  function Prefixed(value: string, r: Result<Parsed<string>>): Result<Parsed<string>> {
    if r.Err? then r else Ok(Parsed(value + r.value.value, r.value.rest))
  }

  lemma PrefixedPush(value: string, c: char, r: Result<Parsed<string>>)
    ensures Prefixed(value, PushFront(c, r)) == Prefixed(value + [c], r)
  {
    if r.Ok? {
      assert value + ([c] + r.value.value) == value + [c] + r.value.value;
    }
  }

  lemma {:induction false} DigitsGrow(s: string, k: nat)
    requires AllDigits(s) && k <= |s|
    ensures DigitsValue(s[..k]) <= DigitsValue(s)
    decreases |s|
  {
    if k < |s| {
      DigitsGrow(s[..|s| - 1], k);
      assert s[..|s| - 1][..k] == s[..k];
    } else {
      assert s[..k] == s;
    }
  }

  lemma NextDigit(run: string, k: nat)
    requires AllDigits(run) && k < |run|
    ensures DigitsValue(run[..k + 1]) == 10 * DigitsValue(run[..k]) + (run[k] as int - '0' as int)
    ensures DigitsValue(run[..k + 1]) <= DigitsValue(run)
  {
    assert run[..k + 1][..k] == run[..k];
    DigitsGrow(run, k + 1);
  }

  class SQLParser {
    var src: string
    var pos: nat

    constructor ()
      ensures Valid()
    {
      src, pos := "", 0;
    }

    /** The cursor never leaves the text. */
    ghost predicate Valid()
      reads this
    {
      pos <= |src|
    }

    ghost function Rest(): string
      reads this
      requires Valid()
    {
      src[pos..]
    }

    // ---- Lexer helpers ----

    method SkipWS()
      requires Valid()
      modifies this`pos
      ensures Valid() && Rest() == SkipSpaces(old(Rest()))
    {
      while pos < |src| && IsSpace(src[pos])
        invariant Valid()
        invariant SkipSpaces(Rest()) == SkipSpaces(old(Rest()))
      {
        assert Rest()[0] == src[pos] && Rest()[1..] == src[pos + 1..];
        pos := pos + 1;
      }
      assert pos < |src| ==> Rest()[0] == src[pos];
    }

    /** The longest run of word characters, possibly empty. */
    method TakeWord() returns (word: string)
      requires Valid()
      modifies this`pos
      ensures Valid()
      ensures
        var before := old(Rest());
        word == before[..WordLength(before)] && Rest() == before[WordLength(before)..]
    {
      word := "";
      while pos < |src| && IsWordChar(src[pos])
        invariant old(pos) <= pos <= |src| && word == src[old(pos)..pos]
        invariant forall i :: 0 <= i < |word| ==> IsWordChar(word[i])
      {
        word := word + [src[pos]];
        pos := pos + 1;
      }
      WordRead(word, Rest());
      assert old(Rest()) == word + Rest();
    }

    method TryKeyword(kw: string) returns (matched: bool)
      requires Valid()
      modifies this`pos
      ensures Valid()
      ensures
        var k := Lexer.TryKeyword(kw, old(Rest()));
        matched == k.value && Rest() == k.rest
    {
      SkipWS();
      var saved := pos;
      var word := TakeWord();
      matched := Upper(word) == kw;
      if !matched {
        pos := saved;
      }
    }

    method ExpectKeyword(kw: string) returns (ok: bool)
      requires Valid()
      modifies this`pos
      ensures Valid() && ok == Lexer.ExpectKeyword(kw, old(Rest())).Ok?
      ensures ok ==> Rest() == Lexer.ExpectKeyword(kw, old(Rest())).value
    {
      ok := TryKeyword(kw);
    }

    method ExpectChar(c: char) returns (ok: bool)
      requires Valid()
      modifies this`pos
      ensures Valid() && ok == Lexer.ExpectChar(c, old(Rest())).Ok?
      ensures ok ==> Rest() == Lexer.ExpectChar(c, old(Rest())).value
    {
      SkipWS();
      if pos >= |src| || src[pos] != c {
        return false;
      }
      pos := pos + 1;
      ok := true;
    }

    method ConsumeIdent() returns (r: Result<string>)
      requires Valid()
      modifies this`pos
      ensures Valid() && Reads(ReadIdent(old(Rest())), r, Rest())
    {
      SkipWS();
      if pos >= |src| || !(IsAlpha(src[pos]) || src[pos] == '_') {
        return Err(SyntaxError);
      }
      var id := TakeWord();
      r := Ok(id);
    }

    method ConsumeQualifiedIdent() returns (r: Result<string>)
      requires Valid()
      modifies this`pos
      ensures Valid() && Reads(ReadName(old(Rest())), r, Rest())
    {
      var name :- ConsumeIdent();
      SkipWS();
      if pos < |src| && src[pos] == '.' {
        assert Rest()[1..] == src[pos + 1..];
        pos := pos + 1;
        var second :- ConsumeIdent();
        name := name + "." + second;
      }
      r := Ok(name);
    }

    /** Stops with an overflow as soon as the accumulated digits leave 64 bits. */
    method ConsumeInt() returns (r: Result<int>)
      requires Valid()
      modifies this`pos
      ensures Valid() && Reads(ReadInt(old(Rest())), r, Rest())
    {
      SkipWS();
      var neg := false;
      if pos < |src| && src[pos] == '-' {
        assert Rest()[1..] == src[pos + 1..];
        neg := true;
        pos := pos + 1;
      }
      r := ConsumeDigits(neg);
    }

    method ConsumeDigits(neg: bool) returns (r: Result<int>)
      requires Valid()
      modifies this`pos
      ensures Valid() && Reads(ReadDigits(neg, old(Rest())), r, Rest())
    {
      ghost var before := Rest();
      ghost var run := before[..DigitsLength(before)];
      if pos >= |src| || !IsDigit(src[pos]) {
        return Err(SyntaxError);
      }
      var start := pos;
      var v: int := 0;
      while pos < |src| && IsDigit(src[pos])
        invariant start <= pos <= |src| && pos - start <= |run|
        invariant v == DigitsValue(run[..pos - start]) <= INT64_MAX
      {
        ghost var k := pos - start;
        assert before[k] == src[pos];
        NextDigit(run, k);
        v := v * 10 + (src[pos] as int - '0' as int);
        pos := pos + 1;
        if v > INT64_MAX {
          return Err(IntegerOverflow);
        }
      }
      assert pos < |src| ==> before[pos - start] == src[pos];
      assert run[..pos - start] == run;
      r := Ok(if neg then -v else v);
    }

    method ConsumeString() returns (r: Result<string>)
      requires Valid()
      modifies this`pos
      ensures Valid() && Reads(ReadString(old(Rest())), r, Rest())
    {
      SkipWS();
      if pos >= |src| || src[pos] != '\'' {
        return Err(SyntaxError);
      }
      assert Rest()[1..] == src[pos + 1..];
      pos := pos + 1;
      r := ConsumeQuoted();
    }

    method ConsumeQuoted() returns (r: Result<string>)
      requires Valid()
      modifies this`pos
      ensures Valid() && Reads(ReadQuoted(old(Rest())), r, Rest())
    {
      var value := "";
      ghost var spec := ReadQuoted(Rest());
      assert spec.Ok? ==> "" + spec.value.value == spec.value.value;
      while pos < |src|
        invariant Valid() && spec == Prefixed(value, ReadQuoted(Rest()))
      {
        var c := src[pos];
        ghost var here := Rest();
        assert here[0] == c && here[1..] == src[pos + 1..];
        pos := pos + 1;
        if c == '\'' {
          if pos < |src| && src[pos] == '\'' {
            assert here[2..] == src[pos + 1..];
            PrefixedPush(value, '\'', ReadQuoted(src[pos + 1..]));
            pos := pos + 1;
            value := value + ['\''];
            continue;
          }
          assert value + "" == value;
          return Ok(value);
        }
        if !IsAscii(c) {
          return Err(SyntaxError);
        }
        PrefixedPush(value, c, ReadQuoted(Rest()));
        value := value + [c];
      }
      r := Err(SyntaxError);
    }

    /** Consumes a comma after optional white space, if there is one. */
    method TakeComma() returns (found: bool)
      requires Valid()
      modifies this`pos
      ensures Valid()
      ensures
        var t := SkipSpaces(old(Rest()));
        found == (t != "" && t[0] == ',') && Rest() == if found then t[1..] else t
    {
      SkipWS();
      found := pos < |src| && src[pos] == ',';
      if found {
        assert Rest()[1..] == src[pos + 1..];
        pos := pos + 1;
      }
    }

    // ---- Statements ----

    method Parse(sql: string) returns (r: Result<SelectStatement>)
      modifies this
      ensures r == Statement(sql)
    {
      src, pos := sql, 0;
      assert Rest() == sql;
      var stmt :- ParseSelect();
      SkipWS();
      if pos < |src| && src[pos] == ';' {
        assert Rest()[1..] == src[pos + 1..];
        pos := pos + 1;
      }
      SkipWS();
      if pos < |src| {
        return Err(SyntaxError);
      }
      r := Ok(stmt);
    }

    method ParseSelect() returns (r: Result<SelectStatement>)
      requires Valid()
      modifies this`pos
      ensures Valid() && Reads(Select(old(Rest())), r, Rest())
    {
      var select := ExpectKeyword("SELECT");
      if !select {
        return Err(SyntaxError);
      }
      var projections :- ParseProjectionList();
      var from := ExpectKeyword("FROM");
      if !from {
        return Err(SyntaxError);
      }
      var table :- ParseTableRef();
      r := ParseClauses(projections, table);
    }

    method ParseClauses(projections: seq<string>, table: TableRef) returns (r: Result<SelectStatement>)
      requires Valid()
      modifies this`pos
      ensures Valid() && Reads(Clauses(projections, table, old(Rest())), r, Rest())
    {
      var joins :- ParseJoins();
      var filter :- ParseWhere();
      var orderBy :- ParseOrderBy();
      var limit :- ParseLimit();
      r := Ok(SelectStatement(projections, table.tableName, table.alias, joins, filter, orderBy, limit));
    }

    method ParseProjectionList() returns (r: Result<seq<string>>)
      requires Valid()
      modifies this`pos
      ensures Valid() && Reads(Projections(old(Rest())), r, Rest())
    {
      SkipWS();
      if pos < |src| && src[pos] == '*' {
        assert Rest()[1..] == src[pos + 1..];
        pos := pos + 1;
        return Ok([]);
      }
      var name :- ConsumeQualifiedIdent();
      r := ParseMoreNames([name]);
    }

    method ParseMoreNames(first: seq<string>) returns (r: Result<seq<string>>)
      requires Valid()
      modifies this`pos
      ensures Valid() && Reads(MoreNames(first, old(Rest())), r, Rest())
    {
      var cols := first;
      while true
        invariant Valid() && MoreNames(first, old(Rest())) == MoreNames(cols, Rest())
        decreases |Rest()|
      {
        var more := TakeComma();
        if !more {
          return Ok(cols);
        }
        var name :- ConsumeQualifiedIdent();
        cols := cols + [name];
      }
    }

    method ParseTableRef() returns (r: Result<TableRef>)
      requires Valid()
      modifies this`pos
      ensures Valid() && Reads(Table(old(Rest())), r, Rest())
    {
      var name :- ConsumeIdent();
      var alias := name;
      SkipWS();
      var explicit := TryKeyword("AS");
      if explicit {
        alias :- ConsumeIdent();
      } else {
        var saved := pos;
        var candidate := ConsumeIdent();
        if candidate.Ok? && !Reserved(candidate.value) {
          alias := candidate.value;
        } else {
          pos := saved;
        }
      }
      r := Ok(TableRef(name, alias));
    }

    method ParseJoins() returns (r: Result<seq<JoinClause>>)
      requires Valid()
      modifies this`pos
      ensures Valid() && Reads(Joins([], old(Rest())), r, Rest())
    {
      var joins: seq<JoinClause> := [];
      while true
        invariant Valid() && Joins([], old(Rest())) == Joins(joins, Rest())
        decreases |Rest()|
      {
        var _ := TryKeyword("INNER");
        var more := TryKeyword("JOIN");
        if !more {
          return Ok(joins);
        }
        var join :- ParseJoin();
        joins := joins + [join];
      }
    }

    method ParseJoin() returns (r: Result<JoinClause>)
      requires Valid()
      modifies this`pos
      ensures Valid() && Reads(OneJoin(old(Rest())), r, Rest())
    {
      var table :- ParseTableRef();
      var on := ExpectKeyword("ON");
      if !on {
        return Err(SyntaxError);
      }
      var condition :- ParseOr();
      r := Ok(JoinClause(table, condition));
    }

    method ParseWhere() returns (r: Result<Option<Expr>>)
      requires Valid()
      modifies this`pos
      ensures Valid() && Reads(Where(old(Rest())), r, Rest())
    {
      var present := TryKeyword("WHERE");
      if !present {
        return Ok(None);
      }
      var e :- ParseOr();
      r := Ok(Some(e));
    }

    method ParseOrderBy() returns (r: Result<seq<OrderByColumn>>)
      requires Valid()
      modifies this`pos
      ensures Valid() && Reads(OrderBy(old(Rest())), r, Rest())
    {
      var present := TryKeyword("ORDER");
      if !present {
        return Ok([]);
      }
      var found := ExpectKeyword("BY");
      if !found {
        return Err(SyntaxError);
      }
      r := ParseOrderByList();
    }

    method ParseOrdered() returns (r: Result<OrderByColumn>)
      requires Valid()
      modifies this`pos
      ensures Valid() && Reads(OneOrder(old(Rest())), r, Rest())
    {
      var name :- ConsumeQualifiedIdent();
      var desc := TryKeyword("DESC");
      if !desc {
        var _ := TryKeyword("ASC");
      }
      r := Ok(OrderByColumn(name, if desc then Descending else Ascending));
    }

    method ParseOrderByList() returns (r: Result<seq<OrderByColumn>>)
      requires Valid()
      modifies this`pos
      ensures Valid() && Reads(OrderList(old(Rest())), r, Rest())
    {
      var first :- ParseOrdered();
      r := ParseMoreOrders([first]);
    }

    method ParseMoreOrders(first: seq<OrderByColumn>) returns (r: Result<seq<OrderByColumn>>)
      requires Valid()
      modifies this`pos
      ensures Valid() && Reads(MoreOrders(first, old(Rest())), r, Rest())
    {
      var cols := first;
      while true
        invariant Valid() && MoreOrders(first, old(Rest())) == MoreOrders(cols, Rest())
        decreases |Rest()|
      {
        var more := TakeComma();
        if !more {
          return Ok(cols);
        }
        var next :- ParseOrdered();
        cols := cols + [next];
      }
    }

    method ParseLimit() returns (r: Result<int>)
      requires Valid()
      modifies this`pos
      ensures Valid() && Reads(LimitCount(old(Rest())), r, Rest())
    {
      var present := TryKeyword("LIMIT");
      if !present {
        return Ok(-1);
      }
      var limit :- ConsumeInt();
      if limit < 0 {
        return Err(SyntaxError);
      }
      r := Ok(limit);
    }

    // ---- Expressions ----

    method ParseOr() returns (r: Result<Expr>)
      requires Valid()
      modifies this`pos
      ensures Valid() && Reads(ExprOr(old(Rest())), r, Rest())
      decreases |Rest()|, 4
    {
      var left :- ParseAnd();
      while true
        invariant Valid() && ExprOr(old(Rest())) == OrTail(left, Rest()) && |Rest()| < |old(Rest())|
        decreases |Rest()|
      {
        var more := TryKeyword("OR");
        if !more {
          return Ok(left);
        }
        var right :- ParseAnd();
        left := Or(left, right);
      }
    }

    method ParseAnd() returns (r: Result<Expr>)
      requires Valid()
      modifies this`pos
      ensures Valid() && Reads(ExprAnd(old(Rest())), r, Rest())
      decreases |Rest()|, 3
    {
      var left :- ParseNot();
      while true
        invariant Valid() && ExprAnd(old(Rest())) == AndTail(left, Rest()) && |Rest()| < |old(Rest())|
        decreases |Rest()|
      {
        var more := TryKeyword("AND");
        if !more {
          return Ok(left);
        }
        var right :- ParseNot();
        left := And(left, right);
      }
    }

    method ParseNot() returns (r: Result<Expr>)
      requires Valid()
      modifies this`pos
      ensures Valid() && Reads(ExprNot(old(Rest())), r, Rest())
      decreases |Rest()|, 2
    {
      var negated := TryKeyword("NOT");
      if negated {
        var operand :- ParseNot();
        return Ok(Not(operand));
      }
      r := ParseComparison();
    }

    method ParseComparison() returns (r: Result<Expr>)
      requires Valid()
      modifies this`pos
      ensures Valid() && Reads(ExprComparison(old(Rest())), r, Rest())
      decreases |Rest()|, 1
    {
      var left :- ParsePrimary();
      SkipWS();
      var op := TakeOperator();
      if op.None? {
        return Ok(left);
      }
      var right :- ParsePrimary();
      r := Ok(Compare(op.value, left, right));
    }

    method TakeOperator() returns (op: Option<CmpOp>)
      requires Valid()
      modifies this`pos
      ensures Valid()
      ensures
        var spec := ReadOperator(old(Rest()));
        if spec.None? then op.None? && pos == old(pos) else op == Some(spec.value.value) && Rest() == spec.value.rest
    {
      var two := pos + 1 < |src| && src[pos + 1] == '=';
      if pos >= |src| {
        return None;
      } else if two && src[pos] == '!' {
        pos := pos + 2;
        return Some(NotEqual);
      } else if two && src[pos] == '>' {
        pos := pos + 2;
        return Some(GreaterEqual);
      } else if two && src[pos] == '<' {
        pos := pos + 2;
        return Some(LessEqual);
      } else if src[pos] == '=' {
        pos := pos + 1;
        return Some(Equal);
      } else if src[pos] == '>' {
        pos := pos + 1;
        return Some(GreaterThan);
      } else if src[pos] == '<' {
        pos := pos + 1;
        return Some(LessThan);
      }
      op := None;
    }

    method ParsePrimary() returns (r: Result<Expr>)
      requires Valid()
      modifies this`pos
      ensures Valid() && Reads(ExprPrimary(old(Rest())), r, Rest())
      decreases |Rest()|, 0
    {
      SkipWS();
      if pos >= |src| {
        return Err(SyntaxError);
      }
      if src[pos] == '(' {
        assert Rest()[1..] == src[pos + 1..];
        pos := pos + 1;
        var inner :- ParseOr();
        var closed := ExpectChar(')');
        return if closed then Ok(inner) else Err(SyntaxError);
      }
      if IsDigit(src[pos]) || src[pos] == '-' {
        var v :- ConsumeInt();
        return Ok(IntLiteral(v));
      }
      if src[pos] == '\'' {
        var text :- ConsumeString();
        return Ok(StringLiteral(text));
      }
      var name :- ConsumeQualifiedIdent();
      r := Ok(ColumnRef(name));
    }
  }
}
