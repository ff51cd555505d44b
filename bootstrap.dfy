/**
 * The first-boot helper on the device: parsing the terse output of `nmcli`, deciding whether
 * the device is on a Wi-Fi network, and routing the requests of the configuration web page.
 * The `nmcli` output is a parameter; running `nmcli` is outside the model.
 */
module Bootstrap {
  import opened Wrappers
  import opened Text

  const HOTSPOT_CONN_NAME: string := "fetap-hotpot"
  const IFNAME: string := "wlan0"

  /** nmcli's escape for a colon inside a field, and the placeholder it is swapped for while splitting. */
  const ESCAPED_COLON: string := "\\:"
  const PLACEHOLDER: string := "___colon___"

  datatype BootstrapError =
    | WrongFieldCount(expected: nat, found: nat)   // the ValueError of a tuple unpacking
    | InvalidLiteral(text: string)                // the ValueError of `int()`

  // ---------------------------------------------------------------- _split_output

  /** `split_line`: fields separated by ':', where an escaped colon is a literal one. */
  function SplitLine(line: string): (fields: seq<string>)
  {
    var parts := Split(Replace(line, ESCAPED_COLON, PLACEHOLDER), ':');
    seq(|parts|, i requires 0 <= i < |parts| => Replace(parts[i], PLACEHOLDER, ":"))
  }

  /** `_split_output`: one row of fields per line of the stripped output. */
  function SplitOutput(output: string): (rows: seq<seq<string>>)
  {
    var lines := Split(Strip(output), '\n');
    seq(|lines|, i requires 0 <= i < |lines| => SplitLine(lines[i]))
  }

  /** The number of field separators: the colons not consumed as part of an escape, scanning from the left. */
  function Separators(line: string): nat
    decreases |line|
  {
    if |line| >= 2 && line[..2] == ESCAPED_COLON then Separators(line[2..])
    else if line == [] then 0
    else (if line[0] == ':' then 1 else 0) + Separators(line[1..])
  }

  lemma {:induction false} SeparatorsAfterEscape(line: string)
    ensures Count(Replace(line, ESCAPED_COLON, PLACEHOLDER), ':') == Separators(line)
    decreases |line|
  {
    var r := Replace(line, ESCAPED_COLON, PLACEHOLDER);
    if |line| < 2 {
      if line != [] {
        assert line[1..] == [];
      }
    } else if line[..2] == ESCAPED_COLON {
      SeparatorsAfterEscape(line[2..]);
      CountAppend(PLACEHOLDER, Replace(line[2..], ESCAPED_COLON, PLACEHOLDER), ':');
      CountZero(PLACEHOLDER, ':');
    } else {
      SeparatorsAfterEscape(line[1..]);
      CountAppend([line[0]], Replace(line[1..], ESCAPED_COLON, PLACEHOLDER), ':');
    }
  }

  /** A line has one field more than it has unescaped colons. */
  lemma FieldCount(line: string)
    ensures |SplitLine(line)| == Separators(line) + 1
  {
    SeparatorsAfterEscape(line);
  }

  /** Empty or blank output still gives one row, holding one empty field. */
  lemma SplitOutputBlank(output: string)
    requires Strip(output) == ""
    ensures SplitOutput(output) == [[""]]
  {
    var lines := Split(Strip(output), '\n');
    assert lines == [""];
    SplitLineEmpty();
    assert SplitOutput(output)[0] == SplitLine(lines[0]);
  }

  lemma SplitLineEmpty()
    ensures SplitLine("") == [""]
  {
    var parts := Split(Replace("", ESCAPED_COLON, PLACEHOLDER), ':');
    assert parts == [""];
    var fields := SplitLine("");
    assert |fields| == 1 && fields[0] == Replace(parts[0], PLACEHOLDER, ":");
  }

  /** Fields free of ':', '\' and '_' are recovered from the line that joins them with ':'. */
  lemma SplitLineJoin(fields: seq<string>)
    requires |fields| >= 1
    requires forall i :: 0 <= i < |fields| ==> ':' !in fields[i] && '\\' !in fields[i] && '_' !in fields[i]
    ensures SplitLine(Join(fields, ':')) == fields
  {
    var line := Join(fields, ':');
    JoinFree(fields, ':', '\\');
    ReplaceAbsent(line, ESCAPED_COLON, PLACEHOLDER);
    SplitJoin(fields, ':');
    forall i | 0 <= i < |fields| ensures Replace(fields[i], PLACEHOLDER, ":") == fields[i] {
      ReplaceAbsent(fields[i], PLACEHOLDER, ":");
    }
  }

  /**
   * Fields that may hold ':' (but no '\' or '_') are recovered from the line nmcli prints for
   * them: each colon escaped as `\:`, the fields joined with ':'.
   */
  lemma SplitLineEscapedJoin(fields: seq<string>)
    requires |fields| >= 1
    requires forall i :: 0 <= i < |fields| ==> '\\' !in fields[i] && '_' !in fields[i]
    ensures SplitLine(Join(seq(|fields|, i requires 0 <= i < |fields| => Replace(fields[i], ":", ESCAPED_COLON)), ':')) == fields
  {
    var escaped := seq(|fields|, i requires 0 <= i < |fields| => Replace(fields[i], ":", ESCAPED_COLON));
    var protected := seq(|fields|, i requires 0 <= i < |fields| => Replace(fields[i], ":", PLACEHOLDER));
    ProtectJoin(escaped, protected, fields);
    forall i | 0 <= i < |protected| ensures ':' !in protected[i] {
      ReplaceRemoves(fields[i], ':', PLACEHOLDER);
    }
    SplitJoin(protected, ':');
    var parts := Split(Replace(Join(escaped, ':'), ESCAPED_COLON, PLACEHOLDER), ':');
    assert parts == protected;
    forall i | 0 <= i < |fields| ensures Replace(parts[i], PLACEHOLDER, ":") == fields[i] {
      UnprotectProtect(fields[i]);
    }
  }

  /** Protecting the escapes of a joined line protects each field's colons. */
  lemma {:induction false} ProtectJoin(escaped: seq<string>, protected: seq<string>, fields: seq<string>)
    requires |escaped| == |fields| && |protected| == |fields|
    requires forall i :: 0 <= i < |fields| ==>
               && '\\' !in fields[i]
               && escaped[i] == Replace(fields[i], ":", ESCAPED_COLON)
               && protected[i] == Replace(fields[i], ":", PLACEHOLDER)
    ensures Replace(Join(escaped, ':'), ESCAPED_COLON, PLACEHOLDER) == Join(protected, ':')
    decreases |fields|
  {
    if |fields| == 1 {
      ProtectEscaped(fields[0], []);
      assert escaped[0] + [] == escaped[0];
      assert protected[0] + [] == protected[0];
    } else if |fields| > 1 {
      var tail := Join(escaped[1..], ':');
      ProtectJoin(escaped[1..], protected[1..], fields[1..]);
      ProtectEscaped(fields[0], [':'] + tail);
      assert escaped[0] + [':'] + tail == escaped[0] + ([':'] + tail);
      var t := [':'] + tail;
      if |t| >= 2 {
        assert t[..2][0] == ':';
        assert t[1..] == tail;
      }
      assert Replace(t, ESCAPED_COLON, PLACEHOLDER) == [':'] + Replace(tail, ESCAPED_COLON, PLACEHOLDER);
    }
  }

  /** An escaped field followed by anything: its escapes become placeholders and the rest is replaced on its own. */
  lemma {:induction false} ProtectEscaped(f: string, t: string)
    requires '\\' !in f
    ensures Replace(Replace(f, ":", ESCAPED_COLON) + t, ESCAPED_COLON, PLACEHOLDER)
         == Replace(f, ":", PLACEHOLDER) + Replace(t, ESCAPED_COLON, PLACEHOLDER)
    decreases |f|
  {
    if f == [] {
      assert Replace(f, ":", ESCAPED_COLON) + t == t;
      assert Replace(f, ":", PLACEHOLDER) == [];
    } else {
      ProtectEscaped(f[1..], t);
      var e := Replace(f[1..], ":", ESCAPED_COLON);
      var p := Replace(f[1..], ":", PLACEHOLDER);
      if f[0] == ':' {
        ProtectColon(f, e, p, t, ESCAPED_COLON, PLACEHOLDER);
      } else {
        ProtectOther(f, e, p, t, ESCAPED_COLON, PLACEHOLDER);
      }
    }
  }

  /** The step for a leading colon: it is escaped as `esc`, and `esc` protected as `ph`. */
  lemma ProtectColon(f: string, e: string, p: string, t: string, esc: string, ph: string)
    requires f != [] && f[0] == ':' && esc != []
    requires e == Replace(f[1..], ":", esc) && p == Replace(f[1..], ":", ph)
    requires Replace(e + t, esc, ph) == p + Replace(t, esc, ph)
    ensures Replace(Replace(f, ":", esc) + t, esc, ph) == Replace(f, ":", ph) + Replace(t, esc, ph)
  {
    ColonHeadAppend(f, esc, t);
    ColonHead(f, ph);
    EscapedHeadChain(Replace(f, ":", esc), Replace(f, ":", ph), e, p, t, esc, ph);
  }

  /** The step for a leading character other than ':' that cannot start `esc`: it passes through both replacements. */
  lemma ProtectOther(f: string, e: string, p: string, t: string, esc: string, ph: string)
    requires f != [] && f[0] != ':' && esc != [] && f[0] != esc[0]
    requires e == Replace(f[1..], ":", esc) && p == Replace(f[1..], ":", ph)
    requires Replace(e + t, esc, ph) == p + Replace(t, esc, ph)
    ensures Replace(Replace(f, ":", esc) + t, esc, ph) == Replace(f, ":", ph) + Replace(t, esc, ph)
  {
    KeptHeadAppend(f, ":", esc, t);
    ReplaceKeepsHead(f, ":", ph);
    KeptHeadChain(f[0], Replace(f, ":", esc), Replace(f, ":", ph), e, p, t, esc, ph);
  }

  /** A leading colon is replaced by `rep`. */
  lemma ColonHead(f: string, rep: string)
    requires f != [] && f[0] == ':'
    ensures Replace(f, ":", rep) == rep + Replace(f[1..], ":", rep)
  {
    assert f == ":" + f[1..];
    ReplaceAtHead(":", rep, f[1..]);
  }

  /** A leading colon replaced by `rep`, with `t` appended. */
  lemma ColonHeadAppend(f: string, rep: string, t: string)
    requires f != [] && f[0] == ':'
    ensures Replace(f, ":", rep) + t == rep + (Replace(f[1..], ":", rep) + t)
  {
    ColonHead(f, rep);
  }

  /** A kept leading character, with `t` appended. */
  lemma KeptHeadAppend(f: string, pat: string, rep: string, t: string)
    requires f != [] && pat != [] && f[0] != pat[0]
    ensures Replace(f, pat, rep) + t == [f[0]] + (Replace(f[1..], pat, rep) + t)
  {
    ReplaceKeepsHead(f, pat, rep);
  }

  /** The replacement of `esc` by `ph` turns a leading `esc` in front of an escaped rest into `ph`. */
  lemma EscapedHeadChain(x: string, y: string, e: string, p: string, t: string, esc: string, ph: string)
    requires esc != []
    requires x + t == esc + (e + t) && y == ph + p
    requires Replace(e + t, esc, ph) == p + Replace(t, esc, ph)
    ensures Replace(x + t, esc, ph) == y + Replace(t, esc, ph)
  {
    ReplaceAtHead(esc, ph, e + t);
    assert ph + (p + Replace(t, esc, ph)) == (ph + p) + Replace(t, esc, ph);
  }

  /** The replacement of `esc` by `ph` passes over a kept character `c` in front of an escaped rest. */
  lemma KeptHeadChain(c: char, x: string, y: string, e: string, p: string, t: string, esc: string, ph: string)
    requires esc != [] && c != esc[0]
    requires x + t == [c] + (e + t) && y == [c] + p
    requires Replace(e + t, esc, ph) == p + Replace(t, esc, ph)
    ensures Replace(x + t, esc, ph) == y + Replace(t, esc, ph)
  {
    ReplaceKeepsHead([c] + (e + t), esc, ph);
    assert ([c] + (e + t))[1..] == e + t;
    assert [c] + (p + Replace(t, esc, ph)) == ([c] + p) + Replace(t, esc, ph);
  }

  /** Replacing every `c` by a text without `c` leaves no `c`. */
  lemma {:induction false} ReplaceRemoves(f: string, c: char, rep: string)
    requires c !in rep
    ensures c !in Replace(f, [c], rep)
    decreases |f|
  {
    if f != [] {
      ReplaceRemoves(f[1..], c, rep);
    }
  }

  /** Turning the placeholders back into ':' restores a field without '_'. */
  lemma {:induction false} UnprotectProtect(f: string)
    requires '_' !in f
    ensures Replace(Replace(f, ":", PLACEHOLDER), PLACEHOLDER, ":") == f
    decreases |f|
  {
    if f != [] {
      var y := Replace(f[1..], ":", PLACEHOLDER);
      UnprotectProtect(f[1..]);
      if f[0] == ':' {
        assert f[..1] == ":";
        assert (PLACEHOLDER + y)[..|PLACEHOLDER|] == PLACEHOLDER && (PLACEHOLDER + y)[|PLACEHOLDER|..] == y;
        assert ":" + f[1..] == f;
      } else {
        assert f[..1] != ":";
        var s := [f[0]] + y;
        if |s| >= |PLACEHOLDER| {
          assert s[..|PLACEHOLDER|][0] == f[0];
          assert s[1..] == y;
        }
        assert [f[0]] + f[1..] == f;
      }
    }
  }

  /** A character missing from every part (and not the separator) is missing from their join. */
  lemma {:induction false} JoinFree(parts: seq<string>, sep: char, c: char)
    requires c != sep
    requires forall i :: 0 <= i < |parts| ==> c !in parts[i]
    ensures c !in Join(parts, sep)
    decreases |parts|
  {
    if |parts| > 1 {
      JoinFree(parts[1..], sep, c);
    }
  }

  /** An escaped colon stays inside its field. */
  lemma EscapedColonScenario()
    ensures SplitLine("a\\:b:c") == ["a:b", "c"]
  {
    var f := "a" + PLACEHOLDER + "b";
    EscapeScenario();
    assert f + ":c" == "a" + PLACEHOLDER + "b:c";
    SplitScenario(f);
    var parts := Split(Replace("a\\:b:c", ESCAPED_COLON, PLACEHOLDER), ':');
    assert parts == [f, "c"];
    UnescapeScenario();
    ReplaceAbsent("c", PLACEHOLDER, ":");
    var fields := SplitLine("a\\:b:c");
    assert |fields| == 2 && fields[0] == "a:b" && fields[1] == "c";
  }

  lemma EscapeScenario()
    ensures Replace("a\\:b:c", ESCAPED_COLON, PLACEHOLDER) == "a" + PLACEHOLDER + "b:c"
  {
    var line := "a\\:b:c";
    assert line[..2][0] == 'a' && ESCAPED_COLON[0] == '\\';
    assert line[1..] == ESCAPED_COLON + "b:c";
    assert (ESCAPED_COLON + "b:c")[..2] == ESCAPED_COLON && (ESCAPED_COLON + "b:c")[2..] == "b:c";
    ReplaceAbsent("b:c", ESCAPED_COLON, PLACEHOLDER);
  }

  lemma SplitScenario(f: string)
    requires ':' !in f
    ensures Split(f + ":c", ':') == [f, "c"]
  {
    SplitOfPlain(f, ':', ":c");
    var c := "c";
    assert c[0] == 'c' && c[1..] == "";
    assert Split(c[1..], ':') == [""];
    assert [c[0]] + "" == c;
    assert Split(c, ':') == [c];
    assert ":c"[0] == ':' && ":c"[1..] == c;
    assert Split(":c", ':') == ["", "c"];
    assert f + "" == f;
  }

  lemma UnescapeScenario()
    ensures Replace("a" + PLACEHOLDER + "b", PLACEHOLDER, ":") == "a:b"
  {
    var f := "a" + PLACEHOLDER + "b";
    assert f[..|PLACEHOLDER|][0] == 'a' && PLACEHOLDER[0] == '_';
    assert f[1..] == PLACEHOLDER + "b";
    assert (PLACEHOLDER + "b")[..|PLACEHOLDER|] == PLACEHOLDER && (PLACEHOLDER + "b")[|PLACEHOLDER|..] == "b";
    ReplaceAbsent("b", PLACEHOLDER, ":");
  }

  // ---------------------------------------------------------------- con_show

  datatype Connection = Connection(name: string, uuid: string, connectionType: string, device: string)

  /** One row of four fields, as a connection. */
  function ConnectionOf(row: seq<string>): Result<Connection, BootstrapError>
  {
    if |row| != 4 then Err(WrongFieldCount(4, |row|)) else Ok(Connection(row[0], row[1], row[2], row[3]))
  }

  /** The list comprehension over the rows: each row unpacked in order; the first that does not unpack raises. */
  function ParseRows<T>(rows: seq<seq<string>>, parse: seq<string> -> Result<T, BootstrapError>): Result<seq<T>, BootstrapError>
  {
    if rows == [] then Ok([])
    else if parse(rows[0]).Err? then Err(parse(rows[0]).error)
    else if ParseRows(rows[1..], parse).Err? then ParseRows(rows[1..], parse)
    else Ok([parse(rows[0]).value] + ParseRows(rows[1..], parse).value)
  }

  /** The rows unpack exactly when each of them does, and then element `i` is row `i` unpacked. */
  lemma {:induction false} ParseRowsSpec<T>(rows: seq<seq<string>>, parse: seq<string> -> Result<T, BootstrapError>)
    ensures ParseRows(rows, parse).Ok? <==> forall i :: 0 <= i < |rows| ==> parse(rows[i]).Ok?
    ensures ParseRows(rows, parse).Ok? ==>
              && |ParseRows(rows, parse).value| == |rows|
              && forall i :: 0 <= i < |rows| ==> ParseRows(rows, parse).value[i] == parse(rows[i]).value
    decreases |rows|
  {
    if rows != [] {
      var tail := rows[1..];
      ParseRowsSpec(tail, parse);
      assert forall i :: 0 <= i < |tail| ==> tail[i] == rows[i + 1];
      if ParseRows(rows, parse).Ok? {
        var r := ParseRows(rows, parse).value;
        assert r == [parse(rows[0]).value] + ParseRows(tail, parse).value;
        forall i | 0 < i < |rows| ensures r[i] == parse(rows[i]).value {
          assert r[i] == ParseRows(tail, parse).value[i - 1];
        }
      }
    }
  }

  /** `con_show`, given what `nmcli con show` printed. */
  function ConShow(output: string): Result<seq<Connection>, BootstrapError>
  {
    ParseRows(SplitOutput(output), ConnectionOf)
  }

  /** `con_show` succeeds exactly when every line has four fields, and connection `i` is line `i`, field by field. */
  lemma ConShowSpec(output: string)
    ensures ConShow(output).Ok? <==> forall i :: 0 <= i < |SplitOutput(output)| ==> |SplitOutput(output)[i]| == 4
    ensures ConShow(output).Ok? ==>
              && |ConShow(output).value| == |SplitOutput(output)|
              && forall i :: 0 <= i < |SplitOutput(output)| ==>
                   var row := SplitOutput(output)[i];
                   ConShow(output).value[i] == Connection(row[0], row[1], row[2], row[3])
  {
    ParseRowsSpec(SplitOutput(output), ConnectionOf);
  }

  /** No output at all is not an empty list of connections: its single one-field row does not unpack. */
  lemma ConShowBlankOutput(output: string)
    requires Strip(output) == ""
    ensures ConShow(output) == Err(WrongFieldCount(4, 1))
  {
    SplitOutputBlank(output);
  }

  // ---------------------------------------------------------------- is_connected

  /** Some connection is on the Wi-Fi interface and is not the configuration hotspot. */
  predicate OnWifi(connections: seq<Connection>)
  {
    exists i :: 0 <= i < |connections| && connections[i].device == IFNAME && connections[i].name != HOTSPOT_CONN_NAME
  }

  /** `is_connected`, given what `nmcli con show` printed; its error is the one `con_show` raises. */
  function IsConnected(output: string): Result<bool, BootstrapError>
  {
    match ConShow(output)
    case Err(e) => Err(e)
    case Ok(connections) => Ok(OnWifi(connections))
  }

  /** Connected exactly when some four-field line names the Wi-Fi interface and a connection other than the hotspot. */
  lemma IsConnectedSpec(output: string)
    ensures IsConnected(output).Ok? <==> forall i :: 0 <= i < |SplitOutput(output)| ==> |SplitOutput(output)[i]| == 4
    ensures IsConnected(output).Ok? ==>
              (IsConnected(output).value <==>
                 exists i :: 0 <= i < |SplitOutput(output)|
                             && SplitOutput(output)[i][3] == IFNAME && SplitOutput(output)[i][0] != HOTSPOT_CONN_NAME)
  {
    ConShowSpec(output);
    if ConShow(output).Ok? {
      OnWifiRows(SplitOutput(output), ConShow(output).value);
    }
  }

  lemma OnWifiRows(rows: seq<seq<string>>, cs: seq<Connection>)
    requires |cs| == |rows|
    requires forall i :: 0 <= i < |rows| ==> |rows[i]| == 4 && cs[i] == Connection(rows[i][0], rows[i][1], rows[i][2], rows[i][3])
    ensures OnWifi(cs) <==> exists i :: 0 <= i < |rows| && rows[i][3] == IFNAME && rows[i][0] != HOTSPOT_CONN_NAME
  {
    if OnWifi(cs) {
      var i :| 0 <= i < |cs| && cs[i].device == IFNAME && cs[i].name != HOTSPOT_CONN_NAME;
      assert rows[i][3] == IFNAME && rows[i][0] != HOTSPOT_CONN_NAME;
    }
    if exists i :: 0 <= i < |rows| && rows[i][3] == IFNAME && rows[i][0] != HOTSPOT_CONN_NAME {
      var i :| 0 <= i < |rows| && rows[i][3] == IFNAME && rows[i][0] != HOTSPOT_CONN_NAME;
      assert cs[i].device == IFNAME && cs[i].name != HOTSPOT_CONN_NAME;
    }
  }

  // ---------------------------------------------------------------- int()

  predicate IsDigit(c: char)
  {
    '0' <= c <= '9'
  }

  /**
   * The digits of a decimal literal as `int()` reads them: single underscores may separate digits.
   * Read from the end: a digit, alone or after a shorter literal, possibly with one underscore between.
   */
  predicate IsDecimalLiteral(b: string)
    decreases |b|
  {
    && |b| > 0 && IsDigit(b[|b| - 1])
    && (|| |b| == 1
        || IsDecimalLiteral(b[..|b| - 1])
        || (|b| >= 3 && b[|b| - 2] == '_' && IsDecimalLiteral(b[..|b| - 2])))
  }

  /** The value of the digits, underscores skipped. */
  function DecimalValue(b: string): int
    decreases |b|
  {
    if b == [] then 0
    else if b[|b| - 1] == '_' then DecimalValue(b[..|b| - 1])
    else DecimalValue(b[..|b| - 1]) * 10 + (b[|b| - 1] as int - '0' as int)
  }

  /** A stripped `int()` argument: one optional sign, then a decimal literal. */
  function SignedValue(t: string): Option<int>
  {
    var negative := |t| > 0 && t[0] == '-';
    var body := if |t| > 0 && (t[0] == '-' || t[0] == '+') then t[1..] else t;
    if IsDecimalLiteral(body) then Some(if negative then -DecimalValue(body) else DecimalValue(body))
    else None
  }

  /** `int(s)`: surrounding whitespace and one sign are allowed. */
  function ParseInt(s: string): (r: Result<int, BootstrapError>)
  {
    match SignedValue(Strip(s))
    case Some(v) => Ok(v)
    case None => Err(InvalidLiteral(s))
  }

  function DigitChar(d: int): char
    requires 0 <= d <= 9
  {
    ('0' as int + d) as char
  }

  /** `str(n)` for a natural number. */
  function NatToString(n: nat): (s: string)
    ensures |s| > 0 && forall i :: 0 <= i < |s| ==> IsDigit(s[i])
  {
    if n < 10 then [DigitChar(n)] else NatToString(n / 10) + [DigitChar(n % 10)]
  }

  /** `str(n)`. */
  function IntToString(n: int): string
  {
    if n < 0 then "-" + NatToString(-n) else NatToString(n)
  }

  lemma {:induction false} NatToStringValue(n: nat)
    ensures IsDecimalLiteral(NatToString(n)) && DecimalValue(NatToString(n)) == n
    decreases n
  {
    var s := NatToString(n);
    if n >= 10 {
      NatToStringValue(n / 10);
      assert s[..|s| - 1] == NatToString(n / 10);
    }
  }

  /** `int(str(n)) == n`. */
  lemma ParseIntRoundTrip(n: int)
    ensures ParseInt(IntToString(n)) == Ok(n)
  {
    IntToStringTrimmed(n);
    SignedValueOfString(n);
  }

  /** The sign and digits of `str(n)` read back as `n`. */
  lemma SignedValueOfString(n: int)
    ensures SignedValue(IntToString(n)) == Some(n)
  {
    var s := IntToString(n);
    if n < 0 {
      var digits := NatToString(-n);
      NatToStringValue(-n);
      assert s[1..] == digits;
      SignedValueNegative(s, digits);
    } else {
      NatToStringValue(n);
      SignedValueUnsigned(s);
    }
  }

  lemma SignedValueNegative(s: string, digits: string)
    requires |s| > 0 && s[0] == '-' && s[1..] == digits && IsDecimalLiteral(digits)
    ensures SignedValue(s) == Some(-DecimalValue(digits))
  {
  }

  lemma SignedValueUnsigned(s: string)
    requires IsDecimalLiteral(s) && IsDigit(s[0])
    ensures SignedValue(s) == Some(DecimalValue(s))
  {
  }

  /** `str(n)` has no surrounding whitespace. */
  lemma IntToStringTrimmed(n: int)
    ensures Strip(IntToString(n)) == IntToString(n)
  {
    var digits := NatToString(if n < 0 then -n else n);
    var s := IntToString(n);
    assert s[|s| - 1] == digits[|digits| - 1];
    StripKeepsTrimmed(s);
  }

  // ---------------------------------------------------------------- device_wifi_list

  datatype Wifi = Wifi(bssid: string, ssid: string, channel: int, signal: int)

  /** One row of nine fields, of which 1, 2, 4 and 6 are kept, the last two read with `int()`. */
  function NetworkOf(row: seq<string>): Result<Wifi, BootstrapError>
  {
    if |row| != 9 then Err(WrongFieldCount(9, |row|))
    else
      match ParseInt(row[4])
      case Err(e) => Err(e)
      case Ok(channel) =>
        match ParseInt(row[6])
        case Err(e) => Err(e)
        case Ok(signal) => Ok(Wifi(row[1], row[2], channel, signal))
  }

  /** A row parses exactly when it has nine fields and fields 4 and 6 are integers. */
  lemma NetworkOfSpec(row: seq<string>)
    ensures NetworkOf(row).Ok? <==> |row| == 9 && ParseInt(row[4]).Ok? && ParseInt(row[6]).Ok?
    ensures NetworkOf(row).Ok? ==>
              NetworkOf(row).value == Wifi(row[1], row[2], ParseInt(row[4]).value, ParseInt(row[6]).value)
  {
  }

  /** `device_wifi_list`, given what `nmcli device wifi list` printed. */
  function DeviceWifiList(output: string): Result<seq<Wifi>, BootstrapError>
  {
    ParseRows(SplitOutput(output), NetworkOf)
  }

  /** The list parses exactly when every line does, and network `i` is built from fields 1, 2, 4 and 6 of line `i`. */
  lemma DeviceWifiListSpec(output: string)
    ensures DeviceWifiList(output).Ok? <==>
              forall i :: 0 <= i < |SplitOutput(output)| ==>
                var row := SplitOutput(output)[i];
                |row| == 9 && ParseInt(row[4]).Ok? && ParseInt(row[6]).Ok?
    ensures DeviceWifiList(output).Ok? ==>
              && |DeviceWifiList(output).value| == |SplitOutput(output)|
              && forall i :: 0 <= i < |SplitOutput(output)| ==>
                   var row := SplitOutput(output)[i];
                   DeviceWifiList(output).value[i] == Wifi(row[1], row[2], ParseInt(row[4]).value, ParseInt(row[6]).value)
  {
    WifiRowsSpec(SplitOutput(output));
  }

  lemma WifiRowsSpec(rows: seq<seq<string>>)
    ensures ParseRows(rows, NetworkOf).Ok? <==>
              forall i :: 0 <= i < |rows| ==> |rows[i]| == 9 && ParseInt(rows[i][4]).Ok? && ParseInt(rows[i][6]).Ok?
    ensures ParseRows(rows, NetworkOf).Ok? ==>
              && |ParseRows(rows, NetworkOf).value| == |rows|
              && forall i :: 0 <= i < |rows| ==>
                   ParseRows(rows, NetworkOf).value[i] == Wifi(rows[i][1], rows[i][2], ParseInt(rows[i][4]).value, ParseInt(rows[i][6]).value)
  {
    ParseRowsSpec(rows, NetworkOf);
    forall i | 0 <= i < |rows|
      ensures NetworkOf(rows[i]).Ok? <==> |rows[i]| == 9 && ParseInt(rows[i][4]).Ok? && ParseInt(rows[i][6]).Ok?
    {
      NetworkOfSpec(rows[i]);
    }
  }

  // ---------------------------------------------------------------- do_GET

  /** What a GET request is answered with. */
  datatype Route = Favicon | Form | Submit(query: string) | Redirect

  /** `s.split(c, maxsplit=1)` unpacked into two: the text before the first `c` and the rest, or the whole text and "". */
  function SplitFirst(s: string, c: char): (r: (string, string))
    ensures c !in r.0
    ensures c !in s ==> r == (s, "")
    ensures c in s ==> s == r.0 + [c] + r.1
    decreases |s|
  {
    if s == [] then ("", "")
    else if s[0] == c then ("", s[1..])
    else
      var rest := SplitFirst(s[1..], c);
      assert s == [s[0]] + s[1..];
      ([s[0]] + rest.0, rest.1)
  }

  /** `do_GET`. */
  function DoGet(requestPath: string): Route
  {
    var (path, query) := SplitFirst(requestPath, '?');
    if path == "/favicon.ico" then Favicon
    else if path == "/" then (if query == "" then Form else Submit(query))
    else Redirect
  }

  /** The routing rule for a path `p` without '?' and an optional query `q`. */
  lemma DoGetRoutes(p: string, q: string, withQuery: bool)
    requires '?' !in p
    ensures var route := DoGet(if withQuery then p + "?" + q else p);
            && (route == Favicon <==> p == "/favicon.ico")
            && (route == Form <==> p == "/" && (!withQuery || q == ""))
            && (route.Submit? <==> p == "/" && withQuery && q != "")
            && (route.Submit? ==> route.query == q)
            && (route == Redirect <==> p != "/" && p != "/favicon.ico")
  {
    var s := if withQuery then p + "?" + q else p;
    var r := SplitFirst(s, '?');
    if withQuery {
      assert s[|p|] == '?';
      assert r.0 == p && r.1 == q by {
        SplitFirstUnique(s, p, q);
      }
    }
  }

  /** A split at the first '?' is the only split whose left side has no '?'. */
  lemma {:induction false} SplitFirstUnique(s: string, p: string, q: string)
    requires '?' !in p && s == p + "?" + q
    ensures SplitFirst(s, '?') == (p, q)
    decreases |p|
  {
    if p == [] {
      assert s[1..] == q;
    } else {
      assert s[1..] == p[1..] + "?" + q;
      SplitFirstUnique(s[1..], p[1..], q);
      assert [p[0]] + p[1..] == p;
    }
  }
}
