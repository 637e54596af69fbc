/**
  The `extract_customer_id_from_logs` model: every log message is split on a
  single space, its second token is parsed as an integer, and the result is a
  two-column table of request ids and customer ids, row for row.

  Python's `str.split(' ')` and `int()` are modelled exactly enough for this:
  `split(' ')` cuts at every space and keeps empty tokens; `int()` accepts an
  optional sign followed by one or more ASCII digits.
*/
module CustomerIds {
  import opened Wrappers

  /** A cell of a table column. */
  datatype Value = Str(s: string) | Int(i: int) | Null

  /** A columnar table: column names and, by position, the column values. */
  datatype Table = Table(names: seq<string>, columns: seq<seq<Value>>)

  /** The exceptions the transformation can raise. */
  datatype Error =
    | KeyError(name: string)       // no column, or several columns, of that name
    | AttributeError               // a message that is not a string has no `split`
    | IndexError                   // `split(' ')` gave fewer than two tokens
    | ValueError(literal: string)  // the second token is not an integer literal
    | OverflowError                // an id does not fit the 64-bit integer column

  const Space: char := ' '

  // ---------------------------------------------------------------------
  // str.split(' ')

  function SplitSpace(s: string): (r: seq<string>)
    ensures |r| >= 1
    decreases |s|
  {
    if s == [] then [""]
    else if s[0] == Space then [""] + SplitSpace(s[1..])
    else
      var rest := SplitSpace(s[1..]);
      [[s[0]] + rest[0]] + rest[1..]
  }

  /** `' '.join(ts)` */
  function JoinSpace(ts: seq<string>): string
    requires |ts| >= 1
    decreases |ts|
  {
    if |ts| == 1 then ts[0] else ts[0] + [Space] + JoinSpace(ts[1..])
  }

  /** Splitting loses nothing: joining the tokens back gives the message. */
  lemma {:induction false} JoinSplit(s: string)
    ensures JoinSpace(SplitSpace(s)) == s
    decreases |s|
  {
    if s == [] {
    } else if s[0] == Space {
      JoinSplit(s[1..]);
      var rest := SplitSpace(s[1..]);
      assert SplitSpace(s) == [""] + rest;
      assert ([""] + rest)[1..] == rest;
      assert s == [s[0]] + s[1..];
    } else {
      JoinSplit(s[1..]);
      var rest := SplitSpace(s[1..]);
      var r := [[s[0]] + rest[0]] + rest[1..];
      assert SplitSpace(s) == r;
      if |rest| == 1 {
        assert s == [s[0]] + rest[0];
      } else {
        assert r[1..] == rest[1..];
        assert JoinSpace(rest) == rest[0] + [Space] + JoinSpace(rest[1..]);
        assert s == [s[0]] + s[1..];
      }
    }
  }

  /** No token holds a space. */
  lemma {:induction false} SplitTokensHaveNoSpace(s: string)
    ensures forall i :: 0 <= i < |SplitSpace(s)| ==> Space !in SplitSpace(s)[i]
    decreases |s|
  {
    if s != [] {
      SplitTokensHaveNoSpace(s[1..]);
      var rest := SplitSpace(s[1..]);
      if s[0] != Space {
        assert Space !in [s[0]] + rest[0];
      }
    }
  }

  /** A string without a space is a single token. */
  lemma {:induction false} SplitNoSpace(p: string)
    requires Space !in p
    ensures SplitSpace(p) == [p]
    decreases |p|
  {
    if p != [] {
      assert Space !in p[1..];
      SplitNoSpace(p[1..]);
      assert [p[0]] + p[1..] == p;
    }
  }

  /** The first token runs up to the first space, and the rest is split on its own. */
  lemma {:induction false} SplitAtFirstSpace(p: string, q: string)
    requires Space !in p
    ensures SplitSpace(p + [Space] + q) == [p] + SplitSpace(q)
    decreases |p|
  {
    var s := p + [Space] + q;
    if p == [] {
      assert s == [Space] + q;
      assert s[1..] == q;
    } else {
      assert s[1..] == p[1..] + [Space] + q;
      assert Space !in p[1..];
      SplitAtFirstSpace(p[1..], q);
      assert [p[0]] + p[1..] == p;
    }
  }

  /** Tokens without spaces are exactly what splitting their join gives back. */
  lemma {:induction false} SplitJoin(ts: seq<string>)
    requires |ts| >= 1
    requires forall i :: 0 <= i < |ts| ==> Space !in ts[i]
    ensures SplitSpace(JoinSpace(ts)) == ts
    decreases |ts|
  {
    if |ts| == 1 {
      SplitNoSpace(ts[0]);
    } else {
      SplitJoin(ts[1..]);
      SplitAtFirstSpace(ts[0], JoinSpace(ts[1..]));
      assert [ts[0]] + ts[1..] == ts;
    }
  }

  /** There is a second token exactly when the message holds a space. */
  lemma {:induction false} SecondTokenExists(s: string)
    ensures |SplitSpace(s)| >= 2 <==> Space in s
    decreases |s|
  {
    if s != [] && s[0] != Space {
      SecondTokenExists(s[1..]);
      assert s == [s[0]] + s[1..];
    }
  }

  // ---------------------------------------------------------------------
  // int()

  predicate IsDigit(c: char)
  {
    '0' <= c <= '9'
  }

  predicate AllDigits(s: string)
  {
    forall i :: 0 <= i < |s| ==> IsDigit(s[i])
  }

  function DigitsValue(s: string): nat
    requires AllDigits(s)
    decreases |s|
  {
    if s == [] then 0
    else DigitsValue(s[..|s| - 1]) * 10 + (s[|s| - 1] as int - '0' as int)
  }

  /** An integer literal: it ends in a digit, and every character is a digit
      except that the first may be a `+` or `-` sign. */
  predicate IsIntLiteral(s: string)
  {
    && |s| >= 1
    && IsDigit(s[|s| - 1])
    && (forall i :: 0 < i < |s| ==> IsDigit(s[i]))
    && (IsDigit(s[0]) || s[0] == '-' || s[0] == '+')
  }

  /** `int(token)`: accepts exactly the integer literals; the value is
      negative only after a `-`. */
  function ParseInt(s: string): (r: Option<int>)
    ensures r.Some? <==> IsIntLiteral(s)
    ensures r.Some? && r.value < 0 ==> s[0] == '-'
  {
    if |s| >= 2 && (s[0] == '-' || s[0] == '+') && AllDigits(s[1..]) then
      Some(if s[0] == '-' then -(DigitsValue(s[1..]) as int) else DigitsValue(s[1..]))
    else if |s| >= 1 && AllDigits(s) then
      Some(DigitsValue(s))
    else
      None
  }

  /** `str(n)` for a natural number: its decimal digits. */
  function ShowNat(n: nat): (s: string)
    ensures |s| >= 1 && AllDigits(s)
  {
    if n < 10 then [('0' as int + n) as char]
    else ShowNat(n / 10) + [('0' as int + n % 10) as char]
  }

  /** `str(n)` */
  function Show(n: int): string
  {
    if n < 0 then "-" + ShowNat(-n) else ShowNat(n)
  }

  lemma {:induction false} DigitsValueShowNat(n: nat)
    ensures DigitsValue(ShowNat(n)) == n
  {
    var s := ShowNat(n);
    if n >= 10 {
      DigitsValueShowNat(n / 10);
      assert s[..|s| - 1] == ShowNat(n / 10);
    }
  }

  /** `int(str(n)) == n` */
  lemma ParseShow(n: int)
    ensures ParseInt(Show(n)) == Some(n)
    ensures Space !in Show(n)
  {
    if n < 0 {
      var digits := ShowNat(-n);
      var s := "-" + digits;
      assert Show(n) == s;
      assert s[0] == '-' && s[1..] == digits;
      assert Space !in digits by {
        assert forall i :: 0 <= i < |digits| ==> IsDigit(digits[i]);
      }
      DigitsValueShowNat(-n);
      assert ParseInt(s) == Some(-(DigitsValue(digits) as int));
    } else {
      var digits := ShowNat(n);
      assert Show(n) == digits;
      assert digits[0] != '-' && digits[0] != '+' by {
        assert IsDigit(digits[0]);
      }
      assert Space !in digits by {
        assert forall i :: 0 <= i < |digits| ==> IsDigit(digits[i]);
      }
      DigitsValueShowNat(n);
      assert ParseInt(digits) == Some(DigitsValue(digits) as int);
    }
  }

  predicate AllZeros(z: string)
  {
    forall i :: 0 <= i < |z| ==> z[i] == '0'
  }

  /** Leading zeros add nothing to a run of digits. */
  lemma {:induction false} DigitsValueZeros(zeros: string, d: string)
    requires AllZeros(zeros) && AllDigits(d)
    ensures AllDigits(zeros + d)
    ensures DigitsValue(zeros + d) == DigitsValue(d)
    decreases |zeros| + |d|
  {
    var s := zeros + d;
    if d == [] {
      assert s == zeros;
      if zeros != [] {
        var shorter := zeros[..|zeros| - 1];
        DigitsValueZeros(shorter, []);
        assert s[..|s| - 1] == shorter + [];
      }
    } else {
      var init := d[..|d| - 1];
      DigitsValueZeros(zeros, init);
      assert s[..|s| - 1] == zeros + init;
      assert s[|s| - 1] == d[|d| - 1];
    }
  }

  /** `int` reads a literal with leading zeros, and with an explicit sign, as
      the number its digits spell: `int("007") == int("+007") == 7` and
      `int("-007") == -7`; in particular `int("-0") == 0`. */
  lemma ParseLeadingZeros(zeros: string, n: nat)
    requires AllZeros(zeros)
    ensures ParseInt(zeros + ShowNat(n)) == Some(n)
    ensures ParseInt("+" + zeros + ShowNat(n)) == Some(n)
    ensures ParseInt("-" + zeros + ShowNat(n)) == Some(-(n as int))
  {
    var d := zeros + ShowNat(n);
    assert |d| >= 1 && AllDigits(d) && DigitsValue(d) == n by {
      DigitsValueZeros(zeros, ShowNat(n));
      DigitsValueShowNat(n);
    }
    assert ParseInt(d) == Some(n) by {
      ParseUnsigned(d);
    }
    assert ParseInt("+" + zeros + ShowNat(n)) == Some(n) by {
      ParseSign(d, '+');
      assert ParseInt(['+'] + d) == Some(DigitsValue(d) as int);
      assert "+" + zeros + ShowNat(n) == ['+'] + d;
    }
    assert ParseInt("-" + zeros + ShowNat(n)) == Some(-(n as int)) by {
      ParseSign(d, '-');
      assert ParseInt(['-'] + d) == Some(-(DigitsValue(d) as int));
      assert "-" + zeros + ShowNat(n) == ['-'] + d;
    }
  }

  /** A run of digits reads as its digits' value. */
  lemma ParseUnsigned(d: string)
    requires |d| >= 1 && AllDigits(d)
    ensures ParseInt(d) == Some(DigitsValue(d) as int)
  {
    assert IsDigit(d[0]);
  }

  /** A sign followed by a run of digits reads as the signed value of the digits. */
  lemma ParseSign(d: string, sign: char)
    requires |d| >= 1 && AllDigits(d) && (sign == '+' || sign == '-')
    ensures ParseInt([sign] + d) == Some(if sign == '-' then -(DigitsValue(d) as int) else DigitsValue(d) as int)
  {
    var s := [sign] + d;
    assert s[0] == sign && s[1..] == d;
    assert |s| >= 2 && AllDigits(s[1..]);
    if sign == '-' {
      assert ParseInt(s) == Some(-(DigitsValue(d) as int));
    } else {
      assert ParseInt(s) == Some(DigitsValue(d) as int);
    }
  }

  // ---------------------------------------------------------------------
  // The per-message parse and the whole transformation

  /** `int(message.split(' ')[1])`. A cell that is not a string has no
      `split`; a message that parses holds a space; a rejected literal is a
      single token that `int` does not accept. */
  function CustomerId(message: Value): (r: Result<int, Error>)
    ensures r == Err(AttributeError) <==> !message.Str?
    ensures r.Ok? ==> message.Str? && Space in message.s
    ensures r.Err? && r.error.ValueError? ==>
      message.Str? && Space !in r.error.literal && ParseInt(r.error.literal).None?
  {
    match message
    case Str(s) =>
      SecondTokenExists(s);
      SplitTokensHaveNoSpace(s);
      var tokens := SplitSpace(s);
      if |tokens| < 2 then Err(IndexError)
      else (
        match ParseInt(tokens[1])
        case None => Err(ValueError(tokens[1]))
        case Some(n) => Ok(n))
    case _ => Err(AttributeError)
  }

  /** The message is `p + ' ' + token + rest`, where `p` and `token` hold no
      space and `rest` is empty or starts a new token: the customer id is
      `int(token)`, whatever follows. */
  lemma SecondTokenParsed(p: string, token: string, rest: string)
    requires Space !in p && Space !in token
    requires rest == [] || rest[0] == Space
    ensures CustomerId(Str(p + [Space] + token + rest)) ==
      match ParseInt(token)
      case Some(n) => Ok(n)
      case None => Err(ValueError(token))
  {
    assert p + [Space] + token + rest == p + [Space] + (token + rest);
    SplitAtFirstSpace(p, token + rest);
    if rest == [] {
      assert token + rest == token;
      SplitNoSpace(token);
    } else {
      assert token + rest == token + [Space] + rest[1..];
      SplitAtFirstSpace(token, rest[1..]);
    }
  }

  /** Any id written in decimal between two spaces after a first token is read back. */
  lemma ShownIdRecovered(p: string, n: int, q: string)
    requires Space !in p
    ensures CustomerId(Str(p + [Space] + Show(n) + [Space] + q)) == Ok(n)
  {
    ParseShow(n);
    assert p + [Space] + Show(n) + [Space] + q == p + [Space] + Show(n) + ([Space] + q);
    SecondTokenParsed(p, Show(n), [Space] + q);
  }

  /** The example in the transformation's comment. */
  lemma WorkedExample()
    ensures CustomerId(Str("######## 8 ########")) == Ok(8)
  {
    assert "######## 8 ########" == "########" + [Space] + "8" + [Space] + "########";
    assert Show(8) == "8";
    ShownIdRecovered("########", 8, "########");
  }

  /** A message without a space has no second token. */
  lemma NoSecondToken(s: string)
    requires Space !in s
    ensures CustomerId(Str(s)) == Err(IndexError)
  {
    SecondTokenExists(s);
  }

  /** Two spaces in a row after the first token give an empty second token,
      which `int` rejects: `split(' ')` does not collapse runs of spaces. */
  lemma DoubleSpaceRejected(p: string, q: string)
    requires Space !in p
    ensures CustomerId(Str(p + [Space, Space] + q)) == Err(ValueError(""))
  {
    assert p + [Space, Space] + q == p + [Space] + "" + ([Space] + q);
    SecondTokenParsed(p, "", [Space] + q);
  }

  /** The list comprehension: every message parsed, in order; the first
      message that fails decides the exception. */
  function CustomerIds(messages: seq<Value>): (r: Result<seq<int>, Error>)
    ensures r.Ok? <==> forall i :: 0 <= i < |messages| ==> CustomerId(messages[i]).Ok?
    ensures r.Ok? ==> |r.value| == |messages|
    ensures r.Ok? ==> forall i :: 0 <= i < |messages| ==> CustomerId(messages[i]) == Ok(r.value[i])
    ensures r.Err? ==>
      exists k :: (0 <= k < |messages| && CustomerId(messages[k]) == Err(r.error)
                   && forall i :: 0 <= i < k ==> CustomerId(messages[i]).Ok?)
    decreases |messages|
  {
    if messages == [] then Ok([])
    else match CustomerId(messages[0])
      case Err(e) => Err(e)
      case Ok(n) =>
        match CustomerIds(messages[1..])
        case Err(e) => Err(e)
        case Ok(rest) => Ok([n] + rest)
  }

  // ---------------------------------------------------------------------
  // The table operations

  /** The position of the first column called `name`, or the number of columns. */
  function IndexOf(names: seq<string>, name: string): (k: nat)
    ensures k <= |names|
    ensures k < |names| ==> names[k] == name
    ensures forall j :: 0 <= j < k ==> names[j] != name
    decreases |names|
  {
    if names == [] then 0
    else if names[0] == name then 0
    else 1 + IndexOf(names[1..], name)
  }

  /** `name` is the name of exactly one column. */
  predicate NamedOnce(names: seq<string>, name: string)
  {
    multiset(names)[name] == 1
  }

  /** `table[name]`: the column of that name; a name that is missing, or
      that several columns share, raises `KeyError`. */
  function Column(t: Table, name: string): (r: Result<seq<Value>, Error>)
    requires |t.names| == |t.columns|
    ensures r.Ok? <==> NamedOnce(t.names, name)
    ensures r.Ok? ==> r.value == t.columns[IndexOf(t.names, name)]
    ensures r.Err? ==> r.error == KeyError(name)
  {
    var k := IndexOf(t.names, name);
    assert NamedOnce(t.names, name) <==> k < |t.names| && name !in t.names[k + 1..] by {
      if k < |t.names| {
        var before, after := t.names[..k], t.names[k + 1..];
        assert t.names == before + [name] + after;
        assert name !in before;
      }
    }
    if k < |t.names| && name !in t.names[k + 1..] then Ok(t.columns[k])
    else Err(KeyError(name))
  }

  /** `table.append_column(name, values)`: a new last column. A fresh name
      then looks up the new values, and every other name looks up what it did
      before. */
  function AppendColumn(t: Table, name: string, values: seq<Value>): (r: Table)
    ensures r.names == t.names + [name] && r.columns == t.columns + [values]
    ensures |r.names| == |r.columns| <==> |t.names| == |t.columns|
    ensures |t.names| == |t.columns| && name !in t.names ==> Column(r, name) == Ok(values)
    ensures |t.names| == |t.columns| ==> forall n :: n != name ==> Column(r, n) == Column(t, n)
  {
    var r := Table(t.names + [name], t.columns + [values]);
    assert |t.names| == |t.columns| ==> forall n :: n != name ==> Column(r, n) == Column(t, n) by {
      if |t.names| == |t.columns| {
        forall n | n != name
          ensures Column(r, n) == Column(t, n)
        {
          LookupPastAppend(t.names, name, n);
        }
      }
    }
    r
  }

  /** Appending a different name moves neither the first position of `n` nor
      whether `n` names exactly one column. */
  lemma LookupPastAppend(names: seq<string>, name: string, n: string)
    requires n != name
    ensures n in names ==> IndexOf(names + [name], n) == IndexOf(names, n)
    ensures NamedOnce(names + [name], n) <==> NamedOnce(names, n)
  {
    var ns := names + [name];
    assert ns[|names|] != n;
    assert multiset(ns) == multiset(names) + multiset{name};
    if n in names {
      var k := IndexOf(names, n);
      assert forall j :: 0 <= j < k ==> ns[j] != n;
      assert ns[k] == n;
    }
  }

  /** `table.select(names)`: the named columns, in the order asked for; it
      raises `KeyError` for a name that no column or several columns have. */
  function Select(t: Table, names: seq<string>): (r: Result<Table, Error>)
    requires |t.names| == |t.columns|
    ensures r.Ok? <==> forall k :: 0 <= k < |names| ==> NamedOnce(t.names, names[k])
    ensures r.Ok? ==> r.value.names == names && |r.value.columns| == |names|
    ensures r.Ok? ==> forall k :: 0 <= k < |names| ==> Column(t, names[k]) == Ok(r.value.columns[k])
    decreases |names|
  {
    if names == [] then Ok(Table([], []))
    else match Column(t, names[0])
      case Err(e) => Err(e)
      case Ok(c) =>
        match Select(t, names[1..])
        case Err(e) => Err(e)
        case Ok(rest) => Ok(Table([names[0]] + rest.names, [c] + rest.columns))
  }

  const Int64Min: int := -0x8000_0000_0000_0000
  const Int64Max: int := 0x7FFF_FFFF_FFFF_FFFF

  predicate IsInt64(n: int)
  {
    Int64Min <= n <= Int64Max
  }

  /** `pa.array(ids)`: a 64-bit integer column, one cell per id in order; an
      id outside the 64-bit range cannot be stored and raises. */
  function Int64Array(ids: seq<int>): (r: Result<seq<Value>, Error>)
    ensures r.Ok? <==> forall i :: 0 <= i < |ids| ==> IsInt64(ids[i])
    ensures r.Ok? ==> |r.value| == |ids| && forall i :: 0 <= i < |ids| ==> r.value[i] == Int(ids[i])
    ensures r.Err? ==> r.error == OverflowError
    decreases |ids|
  {
    if ids == [] then Ok([])
    else if !IsInt64(ids[0]) then Err(OverflowError)
    else match Int64Array(ids[1..])
      case Err(e) => Err(e)
      case Ok(rest) => Ok([Int(ids[0])] + rest)
  }

  /** The columns the transformation reads, as its input declares them. */
  const InputColumns: seq<string> := ["message", "request_id"]

  /** The columns it returns, in order. */
  const OutputColumns: seq<string> := ["request_id", "customer_id"]

  predicate IsCustomerLogs(t: Table)
  {
    t.names == InputColumns && |t.columns| == 2 && |t.columns[0]| == |t.columns[1]|
  }

  /** `extract_customer_id_from_logs`: one output row per log row, in order;
      `request_id` copied, `customer_id` the integer after the first space.
      Any message that cannot be parsed makes the whole transformation fail
      with the first such message's error; otherwise an id outside the 64-bit
      range makes it fail when the id column is built. */
  function ExtractCustomerIdFromLogs(logs: Table): (r: Result<Table, Error>)
    requires IsCustomerLogs(logs)
    ensures r.Ok? <==> forall i :: 0 <= i < |logs.columns[0]| ==>
      CustomerId(logs.columns[0][i]).Ok? && IsInt64(CustomerId(logs.columns[0][i]).value)
    ensures r.Ok? ==>
      && r.value.names == OutputColumns
      && |r.value.columns| == 2
      && r.value.columns[0] == logs.columns[1]
      && |r.value.columns[1]| == |logs.columns[0]|
      && forall i :: 0 <= i < |logs.columns[0]| ==>
           r.value.columns[1][i] == Int(CustomerId(logs.columns[0][i]).value)
    ensures r.Err? ==>
      || (exists k :: (0 <= k < |logs.columns[0]| && CustomerId(logs.columns[0][k]) == Err(r.error)
                       && forall i :: 0 <= i < k ==> CustomerId(logs.columns[0][i]).Ok?))
      || (&& r.error == OverflowError
          && forall i :: 0 <= i < |logs.columns[0]| ==> CustomerId(logs.columns[0][i]).Ok?)
  {
    var messages := Column(logs, "message");
    assert IndexOf(logs.names, "message") == 0;
    assert messages == Ok(logs.columns[0]);
    match CustomerIds(messages.value)
    case Err(e) => Err(e)
    case Ok(ids) =>
      match Int64Array(ids)
      case Err(e) => Err(e)
      case Ok(column) =>
        SelectIdColumns(logs, column);
        Select(AppendColumn(logs, "customer_id", column), OutputColumns)
  }

  /** A message whose second token is an id outside the 64-bit range parses,
      but fails the transformation when the id column is built. */
  lemma OversizedIdRejected(p: string, n: int, q: string, requestId: Value)
    requires Space !in p && !IsInt64(n)
    ensures ExtractCustomerIdFromLogs(Table(InputColumns, [[Str(p + [Space] + Show(n) + [Space] + q)], [requestId]]))
            == Err(OverflowError)
  {
    ShownIdRecovered(p, n, q);
  }

  /** Selecting the output columns after appending the ids yields the
      request ids and the ids, in that order. */
  lemma SelectIdColumns(logs: Table, ids: seq<Value>)
    requires IsCustomerLogs(logs)
    ensures Select(AppendColumn(logs, "customer_id", ids), OutputColumns)
            == Ok(Table(OutputColumns, [logs.columns[1], ids]))
  {
    var t := AppendColumn(logs, "customer_id", ids);
    assert IndexOf(logs.names[1..], "request_id") == 0;
    assert Column(logs, "request_id") == Ok(logs.columns[1]);
    assert "customer_id" !in logs.names;
    assert Column(t, "customer_id") == Ok(ids);
    assert Column(t, "request_id") == Ok(logs.columns[1]);
    var last := OutputColumns[1..];
    assert last == ["customer_id"] && last[1..] == [];
    assert Select(t, last[1..]) == Ok(Table([], []));
    assert [last[0]] + [] == last && [ids] + [] == [ids];
    assert Select(t, last) == Ok(Table(last, [ids]));
    assert OutputColumns[1..] == last && [OutputColumns[0]] + last == OutputColumns;
    assert [logs.columns[1]] + [ids] == [logs.columns[1], ids];
  }
}
