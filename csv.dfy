/** Comma-separated text: how many pieces a naive split yields, and the quoted form of
    section 2 of RFC 4180 (every field enclosed in double quotes, a double quote inside
    a field written twice) together with a reader for it. */
module Csv {
  import opened Options
  import opened Text

  /** The number of occurrences of `c` in `s`. */
  function CountChar(s: string, c: char): nat {
    if s == [] then 0 else (if s[0] == c then 1 else 0) + CountChar(s[1..], c)
  }

  lemma {:induction false} CountCharAppend(s: string, t: string, c: char)
    ensures CountChar(s + t, c) == CountChar(s, c) + CountChar(t, c)
    decreases |s|
  {
    if s != [] {
      assert (s + t)[1..] == s[1..] + t;
      CountCharAppend(s[1..], t, c);
    } else {
      assert s + t == t;
    }
  }

  /** A character that occurs in `s` is counted at least once. */
  lemma {:induction false} CountCharPositive(s: string, c: char)
    ensures c in s <==> CountChar(s, c) > 0
    decreases |s|
  {
    if s != [] {
      CountCharPositive(s[1..], c);
      assert s == [s[0]] + s[1..];
    }
  }

  /** `split(sep)` yields one piece more than there are separators. */
  lemma {:induction false} SplitCount(s: string, sep: char)
    ensures |SplitOn(s, sep)| == 1 + CountChar(s, sep)
    decreases |s|
  {
    var i := IndexOf(s, sep);
    if i == |s| {
      CountCharPositive(s, sep);
    } else {
      assert s == s[..i] + [sep] + s[i + 1..];
      CountCharAppend(s[..i] + [sep], s[i + 1..], sep);
      CountCharAppend(s[..i], [sep], sep);
      CountCharPositive(s[..i], sep);
      SplitCount(s[i + 1..], sep);
    }
  }

  /** Joining n strings adds n - 1 separators, and a separator inside field k adds more. */
  lemma {:induction false} JoinCount(xs: seq<string>, sep: char, k: nat)
    requires k < |xs|
    ensures CountChar(JoinWith(xs, sep), sep) >= |xs| - 1 + CountChar(xs[k], sep)
    decreases |xs|
  {
    if |xs| > 1 {
      var rest := JoinWith(xs[1..], sep);
      CountCharAppend(xs[0] + [sep], rest, sep);
      CountCharAppend(xs[0], [sep], sep);
      if k == 0 {
        JoinCount(xs[1..], sep, 0);
      } else {
        JoinCount(xs[1..], sep, k - 1);
      }
    }
  }

  /** A field with each double quote written twice. */
  function Escape(s: string): (r: string)
    ensures |r| >= |s|
  {
    if s == [] then ""
    else (if s[0] == '"' then "\"\"" else [s[0]]) + Escape(s[1..])
  }

  /** A field enclosed in double quotes. */
  function Quote(s: string): string {
    "\"" + Escape(s) + "\""
  }

  /** Every field quoted. */
  function QuoteAll(xs: seq<string>): (r: seq<string>)
    ensures |r| == |xs|
  {
    seq(|xs|, i requires 0 <= i < |xs| => Quote(xs[i]))
  }

  /** Reads the inside of a quoted field up to its closing quote: the field, with each
      doubled quote read as one, and the text after the closing quote. */
  function Unquote(s: string): (r: Option<(string, string)>)
    ensures r.Some? ==> |r.value.1| < |s|
    decreases |s|
  {
    if s == [] then None
    else if s[0] == '"' then
      if |s| >= 2 && s[1] == '"' then
        match Unquote(s[2..])
        case Some((field, rest)) => Some(("\"" + field, rest))
        case None => None
      else Some(("", s[1..]))
    else
      match Unquote(s[1..])
      case Some((field, rest)) => Some(([s[0]] + field, rest))
      case None => None
  }

  /** Reads a line of quoted fields separated by commas; None when it is not one. */
  function ParseFields(s: string): (r: Option<seq<string>>)
    ensures r.Some? ==> |r.value| >= 1
    decreases |s|
  {
    if s == [] || s[0] != '"' then None
    else
      match Unquote(s[1..])
      case None => None
      case Some((field, rest)) =>
        if rest == [] then Some([field])
        else if rest[0] != ',' then None
        else
          match ParseFields(rest[1..])
          case Some(fields) => Some([field] + fields)
          case None => None
  }

  /** The inside of a quoted field reads back as the field, leaving what follows the
      closing quote, provided that does not begin with another quote. */
  lemma {:induction false} UnquoteEscape(field: string, rest: string)
    requires rest == [] || rest[0] != '"'
    ensures Unquote(Escape(field) + "\"" + rest) == Some((field, rest))
    decreases |field|
  {
    var s := Escape(field) + "\"" + rest;
    if field == [] {
      assert s == "\"" + rest;
      assert s[1..] == rest;
    } else {
      UnquoteEscape(field[1..], rest);
      var t := Escape(field[1..]) + "\"" + rest;
      if field[0] == '"' {
        assert s == "\"\"" + t;
        assert s[2..] == t;
        assert "\"" + field[1..] == field;
      } else {
        assert s == [field[0]] + t;
        assert s[1..] == t;
        assert [field[0]] + field[1..] == field;
      }
    }
  }

  /** Quoting every field and joining with commas reads back as the fields, whatever the
      fields hold. */
  lemma {:induction false} ParseQuotedJoin(xs: seq<string>)
    requires |xs| >= 1
    ensures ParseFields(JoinWith(QuoteAll(xs), ',')) == Some(xs)
    decreases |xs|
  {
    var q := QuoteAll(xs);
    var s := JoinWith(q, ',');
    if |xs| == 1 {
      assert s == q[0] == Quote(xs[0]);
      assert Escape(xs[0]) + "\"" + "" == Escape(xs[0]) + "\"";
      assert s[1..] == Escape(xs[0]) + "\"" + "";
      UnquoteEscape(xs[0], "");
      assert xs == [xs[0]];
    } else {
      var rest := JoinWith(q[1..], ',');
      assert q[1..] == QuoteAll(xs[1..]);
      assert s == "\"" + (Escape(xs[0]) + "\"" + ([','] + rest));
      assert s[1..] == Escape(xs[0]) + "\"" + ([','] + rest);
      UnquoteEscape(xs[0], [','] + rest);
      assert ([','] + rest)[1..] == rest;
      ParseQuotedJoin(xs[1..]);
      assert xs == [xs[0]] + xs[1..];
    }
  }

  /** Quoting adds only double quotes, so any other character absent from a field stays absent. */
  lemma {:induction false} QuoteAvoids(s: string, c: char)
    requires c != '"' && c !in s
    ensures c !in Quote(s)
  {
    EscapeAvoids(s, c);
  }

  /** A character other than a quote or a comma that no field holds is absent from the
      quoted line. */
  lemma QuotedJoinAvoids(xs: seq<string>, c: char)
    requires c != '"' && c != ','
    requires forall j :: 0 <= j < |xs| ==> c !in xs[j]
    ensures c !in JoinWith(QuoteAll(xs), ',')
  {
    forall j | 0 <= j < |xs| ensures c !in QuoteAll(xs)[j] {
      QuoteAvoids(xs[j], c);
    }
    JoinWithAvoids(QuoteAll(xs), ',', c);
  }

  lemma {:induction false} EscapeAvoids(s: string, c: char)
    requires c != '"' && c !in s
    ensures c !in Escape(s)
    decreases |s|
  {
    if s != [] {
      EscapeAvoids(s[1..], c);
    }
  }
}
