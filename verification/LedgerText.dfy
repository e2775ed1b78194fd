/**
 * The account ledger as text: passwd, group and shadow lines parsed at their colons, formatted back with every
 * field checked, and files cut into lines at every character that breaks a line.
 */
module LedgerText {
  import opened Prelude

  datatype Passwd = Passwd(name: string, passwd: string, uid: nat, gid: nat, gecos: string, home: string, shell: string)

  datatype Group = Group(name: string, passwd: string, gid: nat, members: seq<string>)

  /** The day counts of a shadow line may be left empty. */
  datatype Shadow = Shadow(name: string, passwd: string, days: seq<Option<nat>>, flag: string)

  /** Last change, minimum, maximum, warning, inactive, expire. */
  const DAY_FIELDS: nat := 6

  // ---------- characters ----------

  const LINE_BREAKS: set<char> :=
    {'\n', '\r', '\U{0B}', '\U{0C}', '\U{1C}', '\U{1D}', '\U{1E}', '\U{85}', '\U{2028}', '\U{2029}'}

  predicate OneLine(s: string) {
    forall c :: c in s ==> c !in LINE_BREAKS
  }

  predicate FieldFits(s: string) {
    ':' !in s && OneLine(s)
  }

  predicate IsDigit(c: char) {
    '0' <= c <= '9'
  }

  predicate AllDigits(s: string) {
    forall c :: c in s ==> IsDigit(c)
  }

  // ---------- decimal numbers ----------

  function DigitChar(d: nat): char
    requires d < 10
  {
    "0123456789"[d]
  }

  function Decimal(n: nat): (s: string)
    ensures s != "" && AllDigits(s)
  {
    if n < 10 then [DigitChar(n)] else Decimal(n / 10) + [DigitChar(n % 10)]
  }

  function Value(s: string): nat
    requires AllDigits(s)
  {
    if s == "" then 0
    else
      assert s[|s| - 1] in s;
      10 * Value(s[..|s| - 1]) + (s[|s| - 1] as int - '0' as int)
  }

  lemma {:induction false} DecimalRoundTrip(n: nat)
    ensures Value(Decimal(n)) == n
  {
    if n >= 10 {
      DecimalRoundTrip(n / 10);
      assert Decimal(n)[..|Decimal(n)| - 1] == Decimal(n / 10);
    } else {
      assert Decimal(n)[..0] == "";
    }
  }

  // ---------- fields ----------

  /** The text before the first colon and the text after it. */
  function Cut(s: string): Option<(string, string)> {
    if s == "" then None
    else if s[0] == ':' then Some(("", s[1..]))
    else
      match Cut(s[1..])
      case None => None
      case Some((head, tail)) => Some(([s[0]] + head, tail))
  }

  lemma {:induction false} CutAtColon(a: string, b: string)
    requires ':' !in a
    ensures Cut(a + ":" + b) == Some((a, b))
  {
    if a == "" {
      assert (a + ":" + b)[1..] == b;
    } else {
      CutAtColon(a[1..], b);
      assert (a + ":" + b)[1..] == a[1..] + ":" + b;
      assert [a[0]] + a[1..] == a;
    }
  }

  /** `n` fields without colons and the rest of the line. */
  function Fields(s: string, n: nat): (r: Option<seq<string>>)
    ensures r.Some? ==> |r.value| == n + 1
    decreases n
  {
    if n == 0 then Some([s])
    else
      match Cut(s)
      case None => None
      case Some((head, tail)) =>
        match Fields(tail, n - 1)
        case None => None
        case Some(rest) => Some([head] + rest)
  }

  function Joined(fields: seq<string>, mark: string): string {
    if fields == [] then ""
    else if |fields| == 1 then fields[0]
    else fields[0] + mark + Joined(fields[1..], mark)
  }

  lemma {:induction false} FieldsOfJoined(fields: seq<string>)
    requires fields != [] && forall k :: 0 <= k < |fields| - 1 ==> ':' !in fields[k]
    ensures Fields(Joined(fields, ":"), |fields| - 1) == Some(fields)
  {
    if |fields| == 1 {
      assert fields == [fields[0]];
    } else {
      FieldsOfJoined(fields[1..]);
      CutAtColon(fields[0], Joined(fields[1..], ":"));
      assert [fields[0]] + fields[1..] == fields;
    }
  }

  lemma {:induction false} CutIsJoined(s: string)
    requires Cut(s).Some?
    ensures var (head, tail) := Cut(s).value; s == head + ":" + tail && ':' !in head
  {
    if s[0] != ':' {
      CutIsJoined(s[1..]);
    }
  }

  lemma {:induction false} FieldsAreJoined(s: string, n: nat)
    requires Fields(s, n).Some?
    ensures var f := Fields(s, n).value;
            s == Joined(f, ":") && forall k :: 0 <= k < n ==> ':' !in f[k]
    decreases n
  {
    if n > 0 {
      CutIsJoined(s);
      var (head, tail) := Cut(s).value;
      FieldsAreJoined(tail, n - 1);
      assert ([head] + Fields(tail, n - 1).value)[1..] == Fields(tail, n - 1).value;
    }
  }

  /** Cutting finds the one way there is to read a line as `n` colon-free fields and a rest. */
  lemma FieldsAreUnique(s: string, n: nat, f: seq<string>)
    ensures Fields(s, n) == Some(f) <==>
              |f| == n + 1 && s == Joined(f, ":") && forall k :: 0 <= k < n ==> ':' !in f[k]
  {
    if Fields(s, n) == Some(f) {
      FieldsAreJoined(s, n);
    } else if |f| == n + 1 && s == Joined(f, ":") && forall k :: 0 <= k < n ==> ':' !in f[k] {
      FieldsOfJoined(f);
      assert false;
    }
  }

  lemma {:induction false} JoinedOneLine(fields: seq<string>, mark: string)
    requires OneLine(mark) && forall f :: f in fields ==> OneLine(f)
    ensures OneLine(Joined(fields, mark))
  {
    assert fields != [] ==> fields[0] in fields;
    if |fields| > 1 {
      assert forall f :: f in fields[1..] ==> f in fields;
      JoinedOneLine(fields[1..], mark);
    }
  }

  /** A last field runs to the end of the line; a single newline at the very end is let pass and dropped. */
  function LastField(s: string): Option<string> {
    if '\n' !in s then Some(s)
    else if s[|s| - 1] == '\n' && '\n' !in s[..|s| - 1] then Some(s[..|s| - 1])
    else None
  }

  predicate IsNumber(s: string) {
    s != "" && AllDigits(s)
  }

  // ---------- which lines are read, and as what ----------

  /** The line consists of these fields; a newline may follow the last, and only the last may hold colons. */
  ghost predicate ReadsAs(line: string, f: seq<string>) {
    && f != [] && (line == Joined(f, ":") || line == Joined(f, ":") + "\n")
    && NoColons(f, |f| - 1) && '\n' !in f[|f| - 1]
  }

  ghost predicate NoColons(f: seq<string>, n: nat)
    requires n <= |f|
  {
    forall k :: 0 <= k < n ==> ':' !in f[k]
  }

  lemma LastFieldExactly(s: string, t: string)
    ensures LastField(s) == Some(t) <==> '\n' !in t && (s == t || s == t + "\n")
  {
    if '\n' !in t && s == t + "\n" {
      assert s[|s| - 1] == '\n' && s[..|s| - 1] == t;
    }
    if '\n' in s && s[|s| - 1] == '\n' {
      assert s == s[..|s| - 1] + "\n";
    }
  }

  lemma {:induction false} JoinedTail(f: seq<string>, mark: string, tail: string)
    requires f != []
    ensures Joined(f[|f| - 1 := f[|f| - 1] + tail], mark) == Joined(f, mark) + tail
  {
    if |f| > 1 {
      JoinedTail(f[1..], mark, tail);
      assert f[|f| - 1 := f[|f| - 1] + tail][1..] == f[1..][|f| - 2 := f[|f| - 1] + tail];
    }
  }

  /** Cutting and dropping the newline find exactly these fields. */
  lemma FieldsReadAs(line: string, n: nat, f: seq<string>)
    requires |f| == n + 1
    ensures ReadsAs(line, f) <==>
              && Fields(line, n).Some? && Fields(line, n).value[..n] == f[..n]
              && LastField(Fields(line, n).value[n]) == Some(f[n])
  {
    var f' := f[n := f[n] + "\n"];
    FieldsAreEither(line, n, f, f');
    if Fields(line, n).Some? {
      SameButForTheNewline(Fields(line, n).value, f, f', n);
    }
  }

  lemma FieldsAreEither(line: string, n: nat, f: seq<string>, f': seq<string>)
    requires |f| == n + 1 && f' == f[n := f[n] + "\n"]
    ensures ReadsAs(line, f) <==> '\n' !in f[n] && (Fields(line, n) == Some(f) || Fields(line, n) == Some(f'))
  {
    assert Joined(f', ":") == Joined(f, ":") + "\n" by { JoinedTail(f, ":", "\n"); }
    assert Fields(line, n) == Some(f) <==> line == Joined(f, ":") && NoColons(f, n) by { FieldsAreUnique(line, n, f); }
    assert Fields(line, n) == Some(f') <==> line == Joined(f', ":") && NoColons(f', n) by { FieldsAreUnique(line, n, f'); }
    assert NoColons(f, n) <==> NoColons(f', n) by { assert forall k :: 0 <= k < n ==> f'[k] == f[k]; }
  }

  lemma SameButForTheNewline(g: seq<string>, f: seq<string>, f': seq<string>, n: nat)
    requires |f| == |g| == n + 1 && f' == f[n := f[n] + "\n"]
    ensures '\n' !in f[n] && (g == f || g == f') <==> g[..n] == f[..n] && LastField(g[n]) == Some(f[n])
  {
    LastFieldExactly(g[n], f[n]);
    if g[..n] == f[..n] {
      forall k | 0 <= k < n ensures g[k] == f[k] { assert g[..n][k] == f[..n][k]; }
    }
    assert f'[..n] == f[..n];
  }

  // ---------- passwd ----------

  function FormatPasswd(d: Passwd): Option<string> {
    if FieldFits(d.name) && FieldFits(d.passwd) && FieldFits(d.gecos) && FieldFits(d.home) && FieldFits(d.shell) then
      Some(Joined([d.name, d.passwd, Decimal(d.uid), Decimal(d.gid), d.gecos, d.home, d.shell], ":"))
    else None
  }

  function ParsePasswd(line: string): Option<Passwd> {
    match Fields(line, 6)
    case None => None
    case Some(f) =>
      if f[0] == "" || !IsNumber(f[2]) || !IsNumber(f[3]) || LastField(f[6]).None? then None
      else Some(Passwd(f[0], f[1], Value(f[2]), Value(f[3]), f[4], f[5], LastField(f[6]).value))
  }

  /** A line is read as an account if and only if it is these seven fields, with a name and two numbers. */
  lemma PasswdReadsExactly(line: string, d: Passwd)
    ensures ParsePasswd(line) == Some(d) <==>
              exists u, g ::
                && ReadsAs(line, [d.name, d.passwd, u, g, d.gecos, d.home, d.shell])
                && d.name != "" && IsNumber(u) && IsNumber(g) && d.uid == Value(u) && d.gid == Value(g)
  {
    if ParsePasswd(line) == Some(d) {
      var f := Fields(line, 6).value;
      var g := [d.name, d.passwd, f[2], f[3], d.gecos, d.home, d.shell];
      assert f[..6] == g[..6];
      FieldsReadAs(line, 6, g);
    }
    forall u, g |
      && ReadsAs(line, [d.name, d.passwd, u, g, d.gecos, d.home, d.shell])
      && d.name != "" && IsNumber(u) && IsNumber(g) && d.uid == Value(u) && d.gid == Value(g)
      ensures ParsePasswd(line) == Some(d)
    {
      var h := [d.name, d.passwd, u, g, d.gecos, d.home, d.shell];
      FieldsReadAs(line, 6, h);
      var f := Fields(line, 6).value;
      forall k | 0 <= k < 6 ensures f[k] == h[k] { assert f[..6][k] == h[..6][k]; }
    }
  }

  lemma DigitsFit(s: string)
    requires AllDigits(s)
    ensures FieldFits(s)
  {
  }

  lemma FittingFields(fields: seq<string>)
    requires fields != [] && forall k :: 0 <= k < |fields| ==> FieldFits(fields[k])
    ensures Fields(Joined(fields, ":"), |fields| - 1) == Some(fields)
    ensures OneLine(Joined(fields, ":"))
    ensures LastField(fields[|fields| - 1]) == Some(fields[|fields| - 1])
  {
    assert Fields(Joined(fields, ":"), |fields| - 1) == Some(fields) by {
      FieldsOfJoined(fields);
    }
    assert OneLine(Joined(fields, ":")) by {
      ColonFits();
      forall f | f in fields ensures OneLine(f) {
        var k :| 0 <= k < |fields| && fields[k] == f;
      }
      JoinedOneLine(fields, ":");
    }
    FitsAsLast(fields[|fields| - 1]);
  }

  lemma ColonFits()
    ensures OneLine(":")
  {
  }

  lemma FitsAsLast(f: string)
    requires FieldFits(f)
    ensures LastField(f) == Some(f)
  {
  }

  /** What format accepts is read back unchanged exactly when the name is not empty. */
  lemma PasswdRoundTrip(d: Passwd)
    requires FormatPasswd(d).Some?
    ensures OneLine(FormatPasswd(d).value)
    ensures ParsePasswd(FormatPasswd(d).value) == if d.name != "" then Some(d) else None
  {
    var f := [d.name, d.passwd, Decimal(d.uid), Decimal(d.gid), d.gecos, d.home, d.shell];
    DigitsFit(Decimal(d.uid));
    DigitsFit(Decimal(d.gid));
    FittingFields(f);
    DecimalRoundTrip(d.uid);
    DecimalRoundTrip(d.gid);
    assert Fields(FormatPasswd(d).value, 6) == Some(f);
  }

  // ---------- group ----------

  /** The pieces between commas; an empty text is one empty piece. */
  function Split(s: string): (r: seq<string>)
    ensures r != []
  {
    if s == "" then [""]
    else
      var rest := Split(s[1..]);
      if s[0] == ',' then [""] + rest else [[s[0]] + rest[0]] + rest[1..]
  }

  function NonEmpty(pieces: seq<string>): seq<string> {
    if pieces == [] then []
    else (if pieces[0] == "" then [] else [pieces[0]]) + NonEmpty(pieces[1..])
  }

  predicate IsMember(m: string) {
    m != "" && ',' !in m
  }

  lemma {:induction false} SplitAtComma(a: string, b: string)
    requires ',' !in a
    ensures Split(a) == [a]
    ensures Split(a + "," + b) == [a] + Split(b)
  {
    if a == "" {
      assert ("," + b)[1..] == b;
      assert a + "," + b == "," + b;
    } else {
      SplitAtComma(a[1..], b);
      assert (a + "," + b)[1..] == a[1..] + "," + b;
      assert [a[0]] + a[1..] == a;
      assert ([a[1..]] + Split(b))[1..] == Split(b);
    }
  }

  lemma {:induction false} MembersRoundTrip(members: seq<string>)
    requires forall m :: m in members ==> IsMember(m)
    ensures NonEmpty(Split(Joined(members, ","))) == members
  {
    if members == [] {
      assert NonEmpty([""][1..]) == [];
    } else {
      var rest := members[1..];
      assert [members[0]] + rest == members;
      assert IsMember(members[0]) && forall m :: m in rest ==> m in members;
      MembersRoundTrip(rest);
      SplitAtComma(members[0], Joined(rest, ","));
      if rest == [] {
        assert Joined(members, ",") == members[0];
        assert Split(members[0])[1..] == [];
      } else {
        assert ([members[0]] + Split(Joined(rest, ",")))[1..] == Split(Joined(rest, ","));
      }
    }
  }

  lemma {:induction false} SplitHasNoComma(s: string)
    ensures forall p :: p in Split(s) ==> ',' !in p
  {
    if s != "" {
      SplitHasNoComma(s[1..]);
    }
  }

  lemma {:induction false} NonEmptyKeeps(pieces: seq<string>)
    ensures forall p :: p in NonEmpty(pieces) <==> p in pieces && p != ""
  {
    if pieces != [] {
      NonEmptyKeeps(pieces[1..]);
    }
  }

  function FormatGroup(d: Group): Option<string> {
    if FieldFits(d.name) && FieldFits(d.passwd) && (forall m :: m in d.members ==> FieldFits(m)) then
      Some(Joined([d.name, d.passwd, Decimal(d.gid), Joined(d.members, ",")], ":"))
    else None
  }

  function ParseGroup(line: string): Option<Group> {
    match Fields(line, 3)
    case None => None
    case Some(f) =>
      if f[0] == "" || !IsNumber(f[2]) || LastField(f[3]).None? then None
      else Some(Group(f[0], f[1], Value(f[2]), NonEmpty(Split(LastField(f[3]).value))))
  }

  /** A line is read as a group if and only if it is these four fields; empty members between commas are dropped. */
  lemma GroupReadsExactly(line: string, d: Group)
    ensures ParseGroup(line) == Some(d) <==>
              exists g, m ::
                && ReadsAs(line, [d.name, d.passwd, g, m])
                && d.name != "" && IsNumber(g) && d.gid == Value(g) && d.members == NonEmpty(Split(m))
  {
    if ParseGroup(line) == Some(d) {
      var f := Fields(line, 3).value;
      var h := [d.name, d.passwd, f[2], LastField(f[3]).value];
      assert f[..3] == h[..3];
      FieldsReadAs(line, 3, h);
    }
    forall g, m |
      && ReadsAs(line, [d.name, d.passwd, g, m])
      && d.name != "" && IsNumber(g) && d.gid == Value(g) && d.members == NonEmpty(Split(m))
      ensures ParseGroup(line) == Some(d)
    {
      var h := [d.name, d.passwd, g, m];
      FieldsReadAs(line, 3, h);
      var f := Fields(line, 3).value;
      forall k | 0 <= k < 3 ensures f[k] == h[k] { assert f[..3][k] == h[..3][k]; }
    }
  }

  lemma {:induction false} JoinedHasNoColon(members: seq<string>)
    requires forall m :: m in members ==> ':' !in m
    ensures ':' !in Joined(members, ",")
  {
    if |members| > 1 {
      assert forall m :: m in members[1..] ==> m in members;
      JoinedHasNoColon(members[1..]);
    }
  }

  /** What a formatted group line is read back as: the members cut anew at their commas. */
  lemma FormattedGroup(d: Group)
    requires FormatGroup(d).Some?
    ensures OneLine(FormatGroup(d).value)
    ensures ParseGroup(FormatGroup(d).value)
            == if d.name == "" then None else Some(d.(members := NonEmpty(Split(Joined(d.members, ",")))))
  {
    var f := [d.name, d.passwd, Decimal(d.gid), Joined(d.members, ",")];
    DigitsFit(Decimal(d.gid));
    assert ',' !in LINE_BREAKS;
    JoinedOneLine(d.members, ",");
    JoinedHasNoColon(d.members);
    FittingFields(f);
    DecimalRoundTrip(d.gid);
    assert Fields(FormatGroup(d).value, 3) == Some(f);
  }

  /** It is the record that was formatted exactly when the name and the members can be told apart in the text. */
  lemma GroupRoundTrip(d: Group)
    requires FormatGroup(d).Some?
    ensures ParseGroup(FormatGroup(d).value) == Some(d) <==> d.name != "" && forall m :: m in d.members ==> IsMember(m)
  {
    FormattedGroup(d);
    if forall m :: m in d.members ==> IsMember(m) {
      MembersRoundTrip(d.members);
    } else {
      MembersAreMembers(Joined(d.members, ","));
    }
  }

  lemma MembersAreMembers(s: string)
    ensures forall m :: m in NonEmpty(Split(s)) ==> IsMember(m)
  {
    SplitHasNoComma(s);
    NonEmptyKeeps(Split(s));
  }

  /** A group line as the program rewrites it; None when it is no group line or format refuses it. */
  function ReformatGroup(line: string): Option<string> {
    match ParseGroup(line)
    case None => None
    case Some(d) => FormatGroup(d)
  }

  /** Rewriting settles at once: the rewritten line says the same and rewrites to itself. */
  lemma ReformatIsIdempotent(line: string)
    requires ReformatGroup(line).Some?
    ensures ParseGroup(ReformatGroup(line).value) == ParseGroup(line)
    ensures ReformatGroup(ReformatGroup(line).value) == ReformatGroup(line)
  {
    var d := ParseGroup(line).value;
    MembersAreMembers(LastField(Fields(line, 3).value[3]).value);
    GroupRoundTrip(d);
  }

  /** A group line of the file is refused when it is rewritten exactly if one of its members holds a colon. */
  lemma RewritingRefusesExactly(line: string)
    requires OneLine(line) && ParseGroup(line).Some?
    ensures ReformatGroup(line).None? <==> exists m :: m in ParseGroup(line).value.members && ':' in m
  {
    var d, f := ParseGroup(line).value, Fields(line, 3).value;
    FieldsAreJoined(line, 3);
    PiecesAreOneLine(f, ":");
    assert d.name == f[0] && d.passwd == f[1] && f[3] in f;
    LastFieldExactly(f[3], LastField(f[3]).value);
    assert '\n' in LINE_BREAKS;
    MembersAreOneLine(f[3]);
  }

  lemma {:induction false} PiecesAreOneLine(fields: seq<string>, mark: string)
    requires OneLine(Joined(fields, mark))
    ensures forall f :: f in fields ==> OneLine(f)
  {
    if |fields| > 1 {
      var s, head, tail := Joined(fields, mark), fields[0], Joined(fields[1..], mark);
      assert s == head + mark + tail;
      assert forall c :: c in head || c in tail ==> c in s;
      PiecesAreOneLine(fields[1..], mark);
    }
  }

  lemma MembersAreOneLine(s: string)
    requires OneLine(s)
    ensures forall m :: m in NonEmpty(Split(s)) ==> OneLine(m)
  {
    PiecesOfSplit(s);
    NonEmptyKeeps(Split(s));
  }

  lemma {:induction false} PiecesOfSplit(s: string)
    ensures forall p, c :: p in Split(s) && c in p ==> c in s
  {
    if s != "" {
      PiecesOfSplit(s[1..]);
      var rest := Split(s[1..]);
      assert rest == [rest[0]] + rest[1..];
      assert forall c :: c in s <==> c == s[0] || c in s[1..];
    }
  }

  // ---------- shadow ----------

  function DayText(d: Option<nat>): (s: string)
    ensures AllDigits(s)
  {
    match d case None => "" case Some(n) => Decimal(n)
  }

  function Day(s: string): Option<nat>
    requires AllDigits(s)
  {
    if s == "" then None else Some(Value(s))
  }

  function ShadowFields(d: Shadow): (f: seq<string>)
    ensures |f| == |d.days| + 3
  {
    [d.name, d.passwd] + seq(|d.days|, k requires 0 <= k < |d.days| => DayText(d.days[k])) + [d.flag]
  }

  function FormatShadow(d: Shadow): Option<string>
    requires |d.days| == DAY_FIELDS
  {
    if FieldFits(d.name) && FieldFits(d.passwd) && FieldFits(d.flag) then Some(Joined(ShadowFields(d), ":")) else None
  }

  function ParseShadow(line: string): (r: Option<Shadow>)
    ensures r.Some? ==> |r.value.days| == DAY_FIELDS
  {
    match Fields(line, DAY_FIELDS + 2)
    case None => None
    case Some(f) =>
      if f[0] == "" || (exists k :: 2 <= k < 8 && !AllDigits(f[k])) || LastField(f[8]).None? || ':' in f[8] then None
      else Some(Shadow(f[0], f[1], seq(DAY_FIELDS, k requires 0 <= k < DAY_FIELDS => Day(f[k + 2])), LastField(f[8]).value))
  }

  /** A line is read as a password if and only if it is these nine fields, six of them numbers or empty. */
  lemma ShadowReadsExactly(line: string, d: Shadow)
    requires |d.days| == DAY_FIELDS
    ensures ParseShadow(line) == Some(d) <==>
              exists days: seq<string> ::
                && |days| == DAY_FIELDS && ReadsAs(line, [d.name, d.passwd] + days + [d.flag])
                && d.name != "" && ':' !in d.flag
                && (forall k :: 0 <= k < DAY_FIELDS ==> AllDigits(days[k]) && d.days[k] == Day(days[k]))
  {
    if ParseShadow(line) == Some(d) {
      var f := Fields(line, 8).value;
      var h := [d.name, d.passwd] + f[2..8] + [d.flag];
      LastFieldExactly(f[8], d.flag);
      assert f[..8] == h[..8];
      FieldsReadAs(line, 8, h);
    }
    forall days: seq<string> |
      && |days| == DAY_FIELDS && ReadsAs(line, [d.name, d.passwd] + days + [d.flag])
      && d.name != "" && ':' !in d.flag
      && (forall k :: 0 <= k < DAY_FIELDS ==> AllDigits(days[k]) && d.days[k] == Day(days[k]))
      ensures ParseShadow(line) == Some(d)
    {
      var h := [d.name, d.passwd] + days + [d.flag];
      FieldsReadAs(line, 8, h);
      var f := Fields(line, 8).value;
      forall k | 0 <= k < 8 ensures f[k] == h[k] { assert f[..8][k] == h[..8][k]; }
      LastFieldExactly(f[8], d.flag);
      forall k | 2 <= k < 8 ensures AllDigits(f[k]) { assert f[k] == days[k - 2]; }
      assert seq(DAY_FIELDS, k requires 0 <= k < DAY_FIELDS => Day(f[k + 2])) == d.days;
    }
  }

  lemma DayRoundTrip(d: Option<nat>)
    ensures Day(DayText(d)) == d && FieldFits(DayText(d))
  {
    DigitsFit(DayText(d));
    if d.Some? { DecimalRoundTrip(d.value); }
  }

  lemma ShadowFieldsFit(d: Shadow)
    requires |d.days| == DAY_FIELDS && FormatShadow(d).Some?
    ensures forall k :: 0 <= k < |ShadowFields(d)| ==> FieldFits(ShadowFields(d)[k])
    ensures forall k :: 0 <= k < DAY_FIELDS ==>
              AllDigits(ShadowFields(d)[k + 2]) && Day(ShadowFields(d)[k + 2]) == d.days[k]
  {
    forall k | 0 <= k < DAY_FIELDS ensures Day(DayText(d.days[k])) == d.days[k] && FieldFits(DayText(d.days[k])) {
      DayRoundTrip(d.days[k]);
    }
  }

  lemma ShadowRoundTrip(d: Shadow)
    requires |d.days| == DAY_FIELDS && FormatShadow(d).Some?
    ensures OneLine(FormatShadow(d).value)
    ensures ParseShadow(FormatShadow(d).value) == if d.name != "" then Some(d) else None
  {
    var f := ShadowFields(d);
    ShadowFieldsFit(d);
    FittingFields(f);
    forall k | 2 <= k < 8 ensures AllDigits(f[k]) { assert AllDigits(f[(k - 2) + 2]); }
    assert seq(DAY_FIELDS, k requires 0 <= k < DAY_FIELDS => Day(f[k + 2])) == d.days;
  }

  // ---------- files ----------

  /** The length of the line break a text starts with, or 0. */
  function BreakLength(s: string): (n: nat)
    ensures n <= |s|
    ensures n > 0 <==> s != "" && s[0] in LINE_BREAKS
  {
    if s == "" || s[0] !in LINE_BREAKS then 0
    else if |s| > 1 && s[0] == '\r' && s[1] == '\n' then 2
    else 1
  }

  /** The lines of a text, cut after `line`, the part of the present line already read. */
  function LinesFrom(line: string, s: string): seq<string>
    decreases |s|
  {
    if s == "" then (if line == "" then [] else [line])
    else if BreakLength(s) > 0 then [line] + LinesFrom("", s[BreakLength(s)..])
    else LinesFrom(line + [s[0]], s[1..])
  }

  function SplitLines(text: string): seq<string> {
    LinesFrom("", text)
  }

  /** The text written for a list of lines. */
  function Content(lines: seq<string>): string {
    if lines != [] && !EndsWithNewline(lines[|lines| - 1]) then Joined(lines, "\n") + "\n" else Joined(lines, "\n")
  }

  predicate EndsWithNewline(s: string) {
    s != "" && s[|s| - 1] == '\n'
  }

  lemma {:induction false} LinesAreOneLine(line: string, s: string)
    requires OneLine(line)
    ensures forall l :: l in LinesFrom(line, s) ==> OneLine(l)
    decreases |s|
  {
    if s != "" {
      if BreakLength(s) > 0 {
        LinesAreOneLine("", s[BreakLength(s)..]);
      } else {
        LinesAreOneLine(line + [s[0]], s[1..]);
      }
    }
  }

  /** Every line break ends a line, and a carriage return with its newline is one break. */
  lemma {:induction false} LineEndsAtBreak(line: string, a: string, c: char, rest: string)
    requires OneLine(a) && c in LINE_BREAKS
    ensures LinesFrom(line, a + [c] + rest)
            == [line + a] + SplitLines(if c == '\r' && rest != "" && rest[0] == '\n' then rest[1..] else rest)
    decreases |a|
  {
    var s := a + [c] + rest;
    if a == "" {
      assert s[1..] == rest && line + a == line;
      if c == '\r' && rest != "" && rest[0] == '\n' { assert s[2..] == rest[1..]; }
    } else {
      assert a[0] in a;
      assert s[1..] == a[1..] + [c] + rest;
      LineEndsAtBreak(line + [a[0]], a[1..], c, rest);
      assert line + [a[0]] + a[1..] == line + a;
    }
  }

  lemma FirstLine(line: string, a: string, rest: string)
    requires OneLine(a)
    ensures LinesFrom(line, a + "\n" + rest) == [line + a] + SplitLines(rest)
  {
    LineEndsAtBreak(line, a, '\n', rest);
  }

  lemma ContentStep(lines: seq<string>)
    requires lines != [] && forall l :: l in lines ==> OneLine(l)
    ensures Content(lines) == lines[0] + "\n" + Content(lines[1..])
  {
    var rest := lines[1..];
    assert lines[|lines| - 1] in lines && '\n' in LINE_BREAKS;
    if rest == [] {
      assert Content(rest) == "";
    } else {
      assert rest[|rest| - 1] == lines[|lines| - 1];
      assert Joined(lines, "\n") + "\n" == lines[0] + "\n" + (Joined(rest, "\n") + "\n");
    }
  }

  /** What is written line by line is read back line by line, empty lines included. */
  lemma {:induction false} ReadBack(lines: seq<string>)
    requires forall l :: l in lines ==> OneLine(l)
    ensures SplitLines(Content(lines)) == lines
  {
    if lines != [] {
      assert lines[0] in lines && forall l :: l in lines[1..] ==> l in lines;
      ReadBack(lines[1..]);
      var text := Content(lines);
      ContentStep(lines);
      assert SplitLines(text) == [lines[0]] + lines[1..] by {
        FirstLine("", lines[0], Content(lines[1..]));
        assert "" + lines[0] == lines[0];
      }
      assert [lines[0]] + lines[1..] == lines;
    }
  }

  /** A last line that brings its newline along gets no second one, so no empty line follows it. */
  lemma LastNewlineIsNotDoubled(lines: seq<string>, last: string)
    requires OneLine(last) && forall l :: l in lines ==> OneLine(l)
    ensures SplitLines(Content(lines + [last + "\n"])) == lines + [last]
  {
    var all, with := lines + [last], lines + [last + "\n"];
    assert all[|all| - 1 := all[|all| - 1] + "\n"] == with;
    JoinedTail(all, "\n", "\n");
    assert with[|with| - 1][|with[|with| - 1]| - 1] == '\n' && '\n' in LINE_BREAKS;
    assert !EndsWithNewline(last) by { if last != "" { assert last[|last| - 1] in last; } }
    assert Content(with) == Content(all);
    ReadBack(all);
  }

  /** A line added to a file comes back as itself, and the others as before, exactly when it holds no line break. */
  lemma AppendedLineSurvives(text: string, line: string)
    ensures SplitLines(Content(SplitLines(text) + [line])) == SplitLines(text) + [line] <==> OneLine(line)
  {
    var lines := SplitLines(text) + [line];
    LinesAreOneLine("", text);
    LinesAreOneLine("", Content(lines));
    if OneLine(line) {
      ReadBack(lines);
    } else {
      assert line in lines;
    }
  }

  function Records<T>(lines: seq<string>, parse: string -> Option<T>): seq<T> {
    if lines == [] then []
    else (match parse(lines[0]) case None => [] case Some(d) => [d]) + Records(lines[1..], parse)
  }

  lemma {:induction false} RecordsAppend<T>(lines: seq<string>, line: string, parse: string -> Option<T>)
    ensures Records(lines + [line], parse)
            == Records(lines, parse) + (match parse(line) case None => [] case Some(d) => [d])
  {
    if lines == [] {
      assert (lines + [line])[1..] == [];
    } else {
      RecordsAppend(lines[1..], line, parse);
      assert (lines + [line])[1..] == lines[1..] + [line];
    }
  }

  /** One ledger file. */
  class LedgerFile {
    var text: string

    constructor (text: string)
      ensures this.text == text
    {
      this.text := text;
    }

    method Read() returns (lines: seq<string>)
      ensures lines == SplitLines(text)
      ensures forall l :: l in lines ==> OneLine(l)
    {
      LinesAreOneLine("", text);
      lines := SplitLines(text);
    }

    method Write(lines: seq<string>)
      modifies this
      ensures text == Content(lines)
      ensures (forall l :: l in lines ==> OneLine(l)) ==> SplitLines(text) == lines
    {
      if forall l :: l in lines ==> OneLine(l) { ReadBack(lines); }
      text := Content(lines);
    }

    /** Adds an account: afterwards the file holds the old records and the new one, nothing else. */
    method AddPasswd(d: Passwd) returns (ok: bool)
      requires d.name != ""
      modifies this
      ensures ok <==> FormatPasswd(d).Some?
      ensures Records(SplitLines(text), ParsePasswd)
              == Records(SplitLines(old(text)), ParsePasswd) + if ok then [d] else []
      ensures !ok ==> text == old(text)
    {
      var lines := Read();
      var entry := FormatPasswd(d);
      if entry.None? {
        return false;
      }
      PasswdRoundTrip(d);
      RecordsAppend(lines, entry.value, ParsePasswd);
      Write(lines + [entry.value]);
      return true;
    }

    method AddGroup(d: Group) returns (ok: bool)
      requires d.name != "" && forall m :: m in d.members ==> IsMember(m)
      modifies this
      ensures ok <==> FormatGroup(d).Some?
      ensures Records(SplitLines(text), ParseGroup)
              == Records(SplitLines(old(text)), ParseGroup) + if ok then [d] else []
      ensures !ok ==> text == old(text)
    {
      var lines := Read();
      var entry := FormatGroup(d);
      if entry.None? {
        return false;
      }
      FormattedGroup(d);
      GroupRoundTrip(d);
      RecordsAppend(lines, entry.value, ParseGroup);
      Write(lines + [entry.value]);
      return true;
    }

    method AddShadow(d: Shadow) returns (ok: bool)
      requires d.name != "" && |d.days| == DAY_FIELDS
      modifies this
      ensures ok <==> FormatShadow(d).Some?
      ensures Records(SplitLines(text), ParseShadow)
              == Records(SplitLines(old(text)), ParseShadow) + if ok then [d] else []
      ensures !ok ==> text == old(text)
    {
      var lines := Read();
      var entry := FormatShadow(d);
      if entry.None? {
        return false;
      }
      ShadowRoundTrip(d);
      RecordsAppend(lines, entry.value, ParseShadow);
      Write(lines + [entry.value]);
      return true;
    }
  }
}
