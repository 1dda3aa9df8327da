/**
 * The statement classifier of utils.py: `type_of_query` decides a statement's
 * type from the first ten characters of its text. The table-name extractor
 * `parse_db_table_name_from_query` wraps a large regular expression and is
 * not modelled; the parser receives it as a function parameter.
 */
module SqlText {
  import opened Wrappers

  /** The seven literals `type_of_query` can return. */
  datatype StatementType = Insert | Update | Delete | Replace | Select | Ddl | Tcl

  /** The literal string the classifier returns for each type. */
  function Literal(t: StatementType): (s: string)
    ensures |s| >= 3
  {
    match t
    case Insert => "INSERT"
    case Update => "UPDATE"
    case Delete => "DELETE"
    case Replace => "REPLACE"
    case Select => "SELECT"
    case Ddl => "DDL"
    case Tcl => "TCL"
  }

  /**
   * What `parse_db_table_name_from_query` returns: the pattern's first group
   * (an optional schema, possibly still quoted) and its second group (only the
   * quoted-table alternative, so an unquoted table name comes back as None).
   */
  datatype DbTableHint = DbTableHint(db: Option<string>, table: Option<string>)

  type DbTableExtractor = string -> DbTableHint

  /** Upper-casing of one character as `str.upper` does it on ASCII letters. */
  function UpperAscii(c: char): (u: char)
    ensures ('a' <= c <= 'z') == ('A' <= u <= 'Z' && u != c)
  {
    if 'a' <= c <= 'z' then (c as int - 32) as char else c
  }

  function UpperText(s: string): (u: string)
    ensures |u| == |s|
  {
    seq(|s|, i requires 0 <= i < |s| => UpperAscii(s[i]))
  }

  /** `s.upper() == keyword` for an upper-case ASCII keyword. */
  predicate EqualsIgnoringCase(s: string, keyword: string)
  {
    |s| == |keyword| && forall i :: 0 <= i < |s| ==> UpperAscii(s[i]) == keyword[i]
  }

  /**
   * A character matched by `\w` in a Python `str` pattern, restricted to
   * Latin-1: an ASCII letter or digit, `_`, or a Latin-1 character that
   * `str.isalnum()` accepts (letters, superscript digits, vulgar fractions).
   */
  predicate IsWordChar(c: char)
  {
    var n := c as int;
    ('0' <= c <= '9') || ('A' <= c <= 'Z') || ('a' <= c <= 'z') || c == '_'
    || n == 0xAA || n == 0xB2 || n == 0xB3 || n == 0xB5 || n == 0xB9 || n == 0xBA
    || (0xBC <= n <= 0xBE) || (0xC0 <= n <= 0xD6) || (0xD8 <= n <= 0xF6) || (0xF8 <= n <= 0xFF)
  }

  /**
   * `^\bKEYWORD\b` with IGNORECASE against w: w starts with the keyword in any
   * case, and the keyword is followed by a non-word character or by the end of w.
   */
  predicate StartsWithWord(w: string, keyword: string)
  {
    |keyword| <= |w|
    && EqualsIgnoringCase(w[..|keyword|], keyword)
    && (|w| == |keyword| || !IsWordChar(w[|keyword|]))
  }

  const DdlKeywords: seq<string> :=
    ["CREATE", "ALTER", "DROP", "TRUNCATE", "RENAME", "GRANT", "REVOKE", "LOCK", "UNLOCK"]

  /** DDL_QUERY_PATTERN searched in w. */
  predicate DdlPatternMatches(w: string)
  {
    exists k :: 0 <= k < |DdlKeywords| && StartsWithWord(w, DdlKeywords[k])
  }

  /**
   * TCL_QUERY_PATTERN searched in w. Its third alternative is empty and
   * matches at position 0 of every text.
   */
  predicate TclPatternMatches(w: string)
  {
    StartsWithWord(w, "COMMIT") || StartsWithWord(w, "ROLLBACK") || true
  }

  /** `query[:n]` */
  function Prefix(query: string, n: nat): (p: string)
    ensures |p| == if |query| < n then |query| else n
  {
    if |query| < n then query else query[..n]
  }

  /** The first six characters are one of the four DML/SELECT keywords. */
  predicate HasDmlKeyword(query: string)
  {
    |query| >= 6 && exists t :: t in {Insert, Update, Delete, Select} && EqualsIgnoringCase(query[..6], Literal(t))
  }

  /** type_of_query */
  function TypeOfQuery(query: string): (t: Option<StatementType>)
    ensures t.None? <==> |query| < 6
    ensures t in {Some(Insert), Some(Update), Some(Delete), Some(Select)}
            ==> EqualsIgnoringCase(query[..6], Literal(t.value))
    ensures t == Some(Replace) ==> |query| >= 7 && EqualsIgnoringCase(query[..7], "REPLACE")
    ensures t in {Some(Replace), Some(Ddl), Some(Tcl)} ==> !HasDmlKeyword(query)
    ensures |query| >= 7 && !HasDmlKeyword(query) && EqualsIgnoringCase(query[..7], "REPLACE") ==> t == Some(Replace)
    ensures t == Some(Ddl) <==>
              |query| >= 6 && !HasDmlKeyword(query)
              && !(|query| >= 7 && EqualsIgnoringCase(query[..7], "REPLACE"))
              && DdlPatternMatches(Prefix(query, 10))
  {
    if |query| < 6 then None
    else
      var head := query[..6];
      if EqualsIgnoringCase(head, "INSERT") then Some(Insert)
      else if EqualsIgnoringCase(head, "UPDATE") then Some(Update)
      else if EqualsIgnoringCase(head, "DELETE") then Some(Delete)
      else if EqualsIgnoringCase(head, "SELECT") then Some(Select)
      else if EqualsIgnoringCase(Prefix(query, 7), "REPLACE") then Some(Replace)
      else
        var window := Prefix(query, 10);
        if DdlPatternMatches(window) then Some(Ddl)
        else if TclPatternMatches(window) then Some(Tcl)
        else None
  }

  /** Only the first ten characters of a text decide its type. */
  lemma TypeOfQueryReadsTenCharacters(a: string, b: string)
    requires Prefix(a, 10) == Prefix(b, 10)
    ensures TypeOfQuery(a) == TypeOfQuery(b)
  {
    assert |a| < 10 ==> a == b;
    if |a| >= 10 {
      assert a[..6] == b[..6] && a[..7] == b[..7];
    }
  }

  lemma EqualsIgnoringCaseOfUpper(s: string, keyword: string)
    ensures EqualsIgnoringCase(UpperText(s), keyword) == EqualsIgnoringCase(s, keyword)
  {
    if |s| == |keyword| {
      assert forall i :: 0 <= i < |s| ==> UpperAscii(UpperText(s)[i]) == UpperAscii(s[i]);
    }
  }

  lemma UpperTextPrefix(s: string, n: nat)
    ensures Prefix(UpperText(s), n) == UpperText(Prefix(s, n))
  {
  }

  lemma StartsWithWordOfUpper(w: string, keyword: string)
    ensures StartsWithWord(UpperText(w), keyword) == StartsWithWord(w, keyword)
  {
    if |keyword| <= |w| {
      UpperTextPrefix(w, |keyword|);
      EqualsIgnoringCaseOfUpper(w[..|keyword|], keyword);
      if |keyword| < |w| {
        var c := w[|keyword|];
        assert UpperText(w)[|keyword|] == UpperAscii(c);
        assert IsWordChar(UpperAscii(c)) == IsWordChar(c);
      }
    }
  }

  /** Classification is case-insensitive in ASCII letters. */
  lemma TypeOfQueryIgnoresCase(query: string)
    ensures TypeOfQuery(UpperText(query)) == TypeOfQuery(query)
  {
    var u := UpperText(query);
    if |query| >= 6 {
      UpperTextPrefix(query, 6);
      UpperTextPrefix(query, 7);
      UpperTextPrefix(query, 10);
      assert u[..6] == UpperText(query[..6]);
      forall t: StatementType ensures EqualsIgnoringCase(u[..6], Literal(t)) == EqualsIgnoringCase(query[..6], Literal(t)) {
        EqualsIgnoringCaseOfUpper(query[..6], Literal(t));
      }
      EqualsIgnoringCaseOfUpper(Prefix(query, 7), "REPLACE");
      var w := Prefix(query, 10);
      forall k | 0 <= k < |DdlKeywords|
        ensures StartsWithWord(UpperText(w), DdlKeywords[k]) == StartsWithWord(w, DdlKeywords[k])
      {
        StartsWithWordOfUpper(w, DdlKeywords[k]);
      }
      assert DdlPatternMatches(Prefix(u, 10)) == DdlPatternMatches(w);
    }
  }

  /**
   * The empty alternative of the TCL pattern: every text of six or more
   * characters that is not DML, SELECT, REPLACE or DDL is classified TCL,
   * whether or not it starts with COMMIT or ROLLBACK.
   */
  lemma EveryOtherTextIsTcl(query: string)
    requires |query| >= 6 && !HasDmlKeyword(query)
    requires !(|query| >= 7 && EqualsIgnoringCase(query[..7], "REPLACE"))
    requires !DdlPatternMatches(Prefix(query, 10))
    ensures TypeOfQuery(query) == Some(Tcl)
  {
  }

  /** Texts shorter than six characters, such as BEGIN, are not classified. */
  lemma ShortTextExample()
    ensures TypeOfQuery("BEGIN") == None
  {
  }

  lemma DmlExample()
    ensures TypeOfQuery("insert into t") == Some(Insert)
  {
    assert EqualsIgnoringCase("insert", "INSERT");
  }

  lemma DdlExample()
    ensures TypeOfQuery("drop table t") == Some(Ddl)
  {
    var q := "drop table t";
    assert !HasDmlKeyword(q) by {
      assert UpperAscii(q[0]) == 'D' && UpperAscii(q[1]) == 'R';
    }
    assert !EqualsIgnoringCase(Prefix(q, 7), "REPLACE") by { assert UpperAscii(q[0]) == 'D'; }
    assert StartsWithWord(Prefix(q, 10), DdlKeywords[2]);
  }

  /** A keyword followed by a word character is not a DDL keyword; the text still classifies TCL. */
  lemma KeywordBoundaryExample()
    ensures TypeOfQuery("LOCKS t") == Some(Tcl)
  {
    var q := "LOCKS t";
    var w := Prefix(q, 10);
    assert !HasDmlKeyword(q) by { assert UpperAscii(q[0]) == 'L'; }
    assert !EqualsIgnoringCase(Prefix(q, 7), "REPLACE") by { assert UpperAscii(q[0]) == 'L'; }
    assert !DdlPatternMatches(w) by {
      forall k | 0 <= k < |DdlKeywords| ensures !StartsWithWord(w, DdlKeywords[k]) {
        if k == 7 { assert IsWordChar(w[4]); }
        else { assert UpperAscii(w[0]) != DdlKeywords[k][0]; }
      }
    }
  }
}
