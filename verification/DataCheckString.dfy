/** The data-check-string of the Telegram Login Widget ("Checking
    authorization"): all received fields as key=value, sorted by key and joined
    by newlines. */
module DataCheckString {
  import opened Wrappers

  const U64_LIMIT: nat := 0x1_0000_0000_0000_0000

  type u64 = n: nat | n < U64_LIMIT

  /** The user without its hash, which is not part of the string. */
  datatype User = User(
    id: u64,
    firstName: string,
    lastName: Option<string>,
    username: Option<string>,
    photoUrl: Option<string>,
    authDate: u64)

  // ---------- Decimal numbers ----------

  function Digit(d: nat): char
    requires d < 10
  {
    ('0' as int + d) as char
  }

  function Decimal(n: nat): string {
    if n < 10 then [Digit(n)] else Decimal(n / 10) + [Digit(n % 10)]
  }

  function ParseDecimal(s: string): Option<nat> {
    if s == [] || !('0' <= s[|s| - 1] <= '9') then None
    else
      var d := s[|s| - 1] as int - '0' as int;
      if |s| == 1 then Some(d)
      else
        match ParseDecimal(s[..|s| - 1])
        case None => None
        case Some(m) => Some(10 * m + d)
  }

  lemma {:induction false} ParseOfDecimal(n: nat)
    ensures ParseDecimal(Decimal(n)) == Some(n)
    ensures NewlineFree(Decimal(n))
  {
    if n < 10 {
    } else {
      ParseOfDecimal(n / 10);
      var s := Decimal(n / 10);
      assert (s + [Digit(n % 10)])[..|s|] == s;
    }
  }

  // ---------- Lines ----------

  predicate NewlineFree(s: string) {
    '\n' !in s
  }

  function Join(lines: seq<string>): string {
    if lines == [] then ""
    else if |lines| == 1 then lines[0]
    else Join(lines[..|lines| - 1]) + "\n" + lines[|lines| - 1]
  }

  lemma JoinAppend(lines: seq<string>, line: string)
    requires lines != []
    ensures Join(lines + [line]) == Join(lines) + "\n" + line
  {
    assert (lines + [line])[..|lines|] == lines;
  }

  function Split(s: string): (lines: seq<string>)
    ensures lines != []
  {
    if s == [] then [""]
    else
      var before := Split(s[..|s| - 1]);
      var c := s[|s| - 1];
      if c == '\n' then before + [""] else Grow(before, c)
  }

  /** One more character on the last line. */
  function Grow(lines: seq<string>, c: char): (r: seq<string>)
    requires lines != []
    ensures |r| == |lines|
  {
    lines[..|lines| - 1] + [lines[|lines| - 1] + [c]]
  }

  lemma {:induction false} SplitLinesAreNewlineFree(s: string)
    ensures forall line :: line in Split(s) ==> NewlineFree(line)
  {
    if s == [] {
    } else {
      SplitLinesAreNewlineFree(s[..|s| - 1]);
      var before := Split(s[..|s| - 1]);
      assert before[|before| - 1] in before;
    }
  }

  lemma {:induction false} SplitLine(line: string)
    requires NewlineFree(line)
    ensures Split(line) == [line]
  {
    if line == [] {
    } else {
      SplitLine(line[..|line| - 1]);
      assert line == line[..|line| - 1] + [line[|line| - 1]];
    }
  }

  lemma SplitLast(s: string)
    requires s != []
    ensures var before, c := Split(s[..|s| - 1]), s[|s| - 1];
            Split(s) == if c == '\n' then before + [""] else Grow(before, c)
  {
  }

  lemma GrowRight(xs: seq<string>, ys: seq<string>, c: char)
    requires ys != []
    ensures Grow(xs + ys, c) == xs + Grow(ys, c)
  {
  }

  lemma {:induction false} SplitAppend(s: string, line: string)
    ensures Split(s + "\n" + line) == Split(s) + Split(line)
  {
    var whole := s + "\n" + line;
    if line == [] {
      assert whole[..|whole| - 1] == s;
    } else {
      var init := line[..|line| - 1];
      SplitAppend(s, init);
      assert whole[..|whole| - 1] == s + "\n" + init;
      SplitLast(whole);
      SplitLast(line);
      GrowRight(Split(s), Split(init), line[|line| - 1]);
    }
  }

  /** The lines that the pieces are made of. */
  function SplitAll(pieces: seq<string>): seq<string> {
    if pieces == [] then [] else SplitAll(pieces[..|pieces| - 1]) + Split(pieces[|pieces| - 1])
  }

  lemma {:induction false} SplitOfJoin(pieces: seq<string>)
    requires pieces != []
    ensures Split(Join(pieces)) == SplitAll(pieces)
  {
    if |pieces| == 1 {
    } else {
      var init, last := pieces[..|pieces| - 1], pieces[|pieces| - 1];
      SplitOfJoin(init);
      SplitAppend(Join(init), last);
    }
  }

  lemma {:induction false} SplitAllLines(lines: seq<string>)
    requires forall line :: line in lines ==> NewlineFree(line)
    ensures SplitAll(lines) == lines
  {
    if lines == [] {
    } else {
      var init, last := lines[..|lines| - 1], lines[|lines| - 1];
      SplitAllLines(init);
      SplitLine(last);
      assert lines == init + [last];
    }
  }

  lemma Associative(xs: seq<string>, ys: seq<string>, zs: seq<string>)
    ensures xs + ys + zs == xs + (ys + zs)
  {
  }

  lemma SplitAllAppend(pieces: seq<string>, last: string)
    ensures SplitAll(pieces + [last]) == SplitAll(pieces) + Split(last)
  {
    assert (pieces + [last])[..|pieces|] == pieces;
  }

  lemma {:induction false} SplitAllConcat(xs: seq<string>, ys: seq<string>)
    ensures SplitAll(xs + ys) == SplitAll(xs) + SplitAll(ys)
  {
    if ys == [] {
      assert xs + ys == xs;
    } else {
      var init, last := ys[..|ys| - 1], ys[|ys| - 1];
      SplitAllConcat(xs, init);
      assert xs + ys == xs + init + [last] && ys == init + [last];
      SplitAllAppend(xs + init, last);
      SplitAllAppend(init, last);
      Associative(SplitAll(xs), SplitAll(init), Split(last));
    }
  }

  // ---------- Fields in key order ----------

  type Field = (string, string)

  ghost predicate LexLess(a: string, b: string) {
    b != [] && (a == [] || a[0] < b[0] || (a[0] == b[0] && LexLess(a[1..], b[1..])))
  }

  lemma {:induction false} LexIrreflexive(a: string)
    ensures !LexLess(a, a)
  {
    if a == [] {
    } else {
      LexIrreflexive(a[1..]);
    }
  }

  lemma {:induction false} LexTransitive(a: string, b: string, c: string)
    requires LexLess(a, b) && LexLess(b, c)
    ensures LexLess(a, c)
  {
    if a == [] {
    } else if a[0] == b[0] == c[0] {
      LexTransitive(a[1..], b[1..], c[1..]);
    }
  }

  /** `pairs` lists the fields of `m` by strictly increasing key. */
  ghost predicate SortedListing(m: map<string, string>, pairs: seq<Field>) {
    && (forall i, j :: 0 <= i < j < |pairs| ==> LexLess(pairs[i].0, pairs[j].0))
    && (forall k, v :: (k, v) in pairs <==> k in m && m[k] == v)
  }

  lemma FirstFieldsAgree(m: map<string, string>, xs: seq<Field>, ys: seq<Field>)
    requires SortedListing(m, xs) && SortedListing(m, ys) && xs != []
    ensures ys != [] && xs[0] == ys[0]
  {
    var x := xs[0];
    assert (x.0, x.1) in ys;
    var i :| 0 <= i < |ys| && ys[i] == x;
    var y := ys[0];
    assert (y.0, y.1) in xs;
    var j :| 0 <= j < |xs| && xs[j] == y;
    if i > 0 && j > 0 {
      LexTransitive(x.0, y.0, x.0);
      LexIrreflexive(x.0);
    }
  }

  /** There is only one way to list fields in key order. */
  lemma {:induction false} SortedListingIsUnique(m: map<string, string>, xs: seq<Field>, ys: seq<Field>)
    requires SortedListing(m, xs) && SortedListing(m, ys)
    ensures xs == ys
    decreases |xs|
  {
    assert ys != [] ==> (ys[0].0, ys[0].1) in ys;
    if xs == [] {
    } else {
      FirstFieldsAgree(m, xs, ys);
      TailListing(m, xs);
      TailListing(m, ys);
      SortedListingIsUnique(m - {xs[0].0}, xs[1..], ys[1..]);
      assert xs == [xs[0]] + xs[1..] && ys == [ys[0]] + ys[1..];
    }
  }

  lemma TailListing(m: map<string, string>, xs: seq<Field>)
    requires SortedListing(m, xs) && xs != []
    ensures SortedListing(m - {xs[0].0}, xs[1..])
  {
    var rest := xs[1..];
    forall k, v ensures (k, v) in rest <==> k in m - {xs[0].0} && m[k] == v {
      if (k, v) in rest {
        var i :| 0 <= i < |rest| && rest[i] == (k, v);
        assert xs[i + 1] == (k, v);
        LexIrreflexive(k);
      }
      if k in m - {xs[0].0} && m[k] == v {
        assert (k, v) in xs;
      }
    }
  }

  function Optional(key: string, value: Option<string>): seq<Field> {
    if value.Some? then [(key, value.value)] else []
  }

  /** The fields that a user has, as an unordered collection. */
  function FieldMap(u: User): map<string, string> {
    map["auth_date" := Decimal(u.authDate)] + map["first_name" := u.firstName] + map["id" := Decimal(u.id)]
    + OptionalMap("last_name", u.lastName) + OptionalMap("photo_url", u.photoUrl) + OptionalMap("username", u.username)
  }

  function OptionalMap(key: string, value: Option<string>): map<string, string> {
    if value.Some? then map[key := value.value] else map[]
  }

  /** The three fields that every user has. */
  function Required(u: User): seq<Field> {
    [("auth_date", Decimal(u.authDate)), ("first_name", u.firstName), ("id", Decimal(u.id))]
  }

  function Fields(u: User): seq<Field> {
    Required(u) + Optional("last_name", u.lastName) + Optional("photo_url", u.photoUrl) + Optional("username", u.username)
  }

  /** The string that is to be hashed. */
  function Text(u: User): string {
    Join(Lines(Fields(u)))
  }

  function Line(f: Field): string {
    f.0 + "=" + f.1
  }

  function Lines(fields: seq<Field>): seq<string> {
    seq(|fields|, i requires 0 <= i < |fields| => Line(fields[i]))
  }

  /** A field whose key starts later than all others goes last. */
  lemma LaterField(m: map<string, string>, pairs: seq<Field>, key: string, value: Option<string>)
    requires SortedListing(m, pairs)
    requires key != [] && forall f :: f in pairs ==> f.0 != [] && f.0[0] < key[0]
    ensures SortedListing(m + OptionalMap(key, value), pairs + Optional(key, value))
    ensures forall f :: f in pairs + Optional(key, value) ==> f.0 != [] && f.0[0] <= key[0]
  {
    if value.Some? {
      var m', pairs' := m + OptionalMap(key, value), pairs + [(key, value.value)];
      forall k, v ensures (k, v) in pairs' <==> k in m' && m'[k] == v {
        assert (k, v) in pairs' <==> (k, v) in pairs || (k, v) == (key, value.value);
        assert (k, v) in pairs ==> k != key;
        assert k in m ==> (k, m[k]) in pairs;
      }
      forall i, j | 0 <= i < j < |pairs'| ensures LexLess(pairs'[i].0, pairs'[j].0) {
        assert i < |pairs| ==> pairs'[i] == pairs[i] && pairs[i] in pairs;
      }
    } else {
      assert pairs + [] == pairs && m + map[] == m;
    }
  }

  /** For all eight combinations of optional fields the listing is sorted and complete. */
  lemma FieldsAreSorted(u: User)
    ensures SortedListing(FieldMap(u), Fields(u))
  {
    var m1, p1 := OptionalMap("auth_date", Some(Decimal(u.authDate))), Optional("auth_date", Some(Decimal(u.authDate)));
    LaterField(map[], [], "auth_date", Some(Decimal(u.authDate)));
    assert map[] + m1 == m1 && [] + p1 == p1;
    var m2, p2 := m1 + OptionalMap("first_name", Some(u.firstName)), p1 + Optional("first_name", Some(u.firstName));
    LaterField(m1, p1, "first_name", Some(u.firstName));
    var m3, p3 := m2 + OptionalMap("id", Some(Decimal(u.id))), p2 + Optional("id", Some(Decimal(u.id)));
    LaterField(m2, p2, "id", Some(Decimal(u.id)));
    var m4, p4 := m3 + OptionalMap("last_name", u.lastName), p3 + Optional("last_name", u.lastName);
    LaterField(m3, p3, "last_name", u.lastName);
    var m5, p5 := m4 + OptionalMap("photo_url", u.photoUrl), p4 + Optional("photo_url", u.photoUrl);
    LaterField(m4, p4, "photo_url", u.photoUrl);
    LaterField(m5, p5, "username", u.username);
    assert p3 == [("auth_date", Decimal(u.authDate)), ("first_name", u.firstName), ("id", Decimal(u.id))];
  }

  /** However the fields are listed in key order, their join is the same. */
  lemma AnyListing(u: User)
    ensures forall pairs :: SortedListing(FieldMap(u), pairs) ==> pairs == Fields(u)
  {
    FieldsAreSorted(u);
    forall pairs | SortedListing(FieldMap(u), pairs) ensures pairs == Fields(u) {
      SortedListingIsUnique(FieldMap(u), pairs, Fields(u));
    }
  }

  lemma KeyText()
    ensures "\nlast_name=" == "\n" + "last_name" + "=" && "\nphoto_url=" == "\n" + "photo_url" + "="
    ensures "\nusername=" == "\n" + "username" + "="
  {
  }

  method WriteRequired(u: User) returns (buf: string)
    ensures buf == Join(Lines(Required(u)))
  {
    buf := "auth_date=" + Decimal(u.authDate) + "\n";
    buf := buf + "first_name=" + u.firstName + "\n";
    buf := buf + "id=" + Decimal(u.id);
    assert buf == ("auth_date=" + Decimal(u.authDate)) + "\n"
                  + ("first_name=" + u.firstName) + "\n" + ("id=" + Decimal(u.id));
    assert "auth_date=" == "auth_date" + "=" && "first_name=" == "first_name" + "=" && "id=" == "id" + "=";
    RequiredLines(Required(u), buf);
  }

  /** Write the string field by field. It is the join of the fields in key order. */
  method DataCheckString(u: User) returns (buf: string)
    ensures buf == Text(u)
    ensures forall pairs :: SortedListing(FieldMap(u), pairs) ==> buf == Join(Lines(pairs))
  {
    buf := WriteRequired(u);
    ghost var fs := Required(u);
    KeyText();
    if u.lastName.Some? {
      Written(buf, fs, "\nlast_name=", ("last_name", u.lastName.value));
      buf := buf + "\nlast_name=" + u.lastName.value;
    } else {
      assert fs + [] == fs;
    }
    fs := fs + Optional("last_name", u.lastName);
    if u.photoUrl.Some? {
      Written(buf, fs, "\nphoto_url=", ("photo_url", u.photoUrl.value));
      buf := buf + "\nphoto_url=" + u.photoUrl.value;
    } else {
      assert fs + [] == fs;
    }
    fs := fs + Optional("photo_url", u.photoUrl);
    if u.username.Some? {
      Written(buf, fs, "\nusername=", ("username", u.username.value));
      buf := buf + "\nusername=" + u.username.value;
    } else {
      assert fs + [] == fs;
    }
    fs := fs + Optional("username", u.username);
    assert fs == Fields(u);
    AnyListing(u);
  }

  lemma Written(buf: string, fs: seq<Field>, text: string, f: Field)
    requires fs != [] && buf == Join(Lines(fs)) && text == "\n" + f.0 + "="
    ensures buf + text + f.1 == Join(Lines(fs + [f]))
  {
    OneMoreLine(fs, f);
    assert buf + text + f.1 == buf + "\n" + (f.0 + "=" + f.1);
  }

  lemma OneMoreLine(fs: seq<Field>, f: Field)
    requires fs != []
    ensures Join(Lines(fs + [f])) == Join(Lines(fs)) + "\n" + Line(f)
  {
    assert Lines(fs + [f]) == Lines(fs) + [Line(f)];
    JoinAppend(Lines(fs), Line(f));
  }

  lemma RequiredLines(fs: seq<Field>, buf: string)
    requires |fs| == 3 && buf == Line(fs[0]) + "\n" + Line(fs[1]) + "\n" + Line(fs[2])
    ensures buf == Join(Lines(fs))
  {
    OneMoreLine(fs[..2], fs[2]);
    OneMoreLine(fs[..1], fs[1]);
    assert fs[..2] == fs[..1] + [fs[1]] && fs == fs[..2] + [fs[2]];
    assert Lines(fs[..1]) == [Line(fs[0])];
  }

  // ---------- Reading the string back ----------

  /** What follows `key=` on a line that starts so. */
  function After(key: string, line: string): Option<string> {
    if key + "=" <= line then Some(line[|key| + 1..]) else None
  }

  function TakeOptional(key: string, lines: seq<string>): (Option<string>, seq<string>) {
    if lines != [] && After(key, lines[0]).Some? then (After(key, lines[0]), lines[1..]) else (None, lines)
  }

  function Decode(s: string): Option<User> {
    var lines := Split(s);
    if |lines| < 3 then None
    else
      var authDate, firstName, id := After("auth_date", lines[0]), After("first_name", lines[1]), After("id", lines[2]);
      if authDate.None? || firstName.None? || id.None? then None
      else
        var d, n := ParseDecimal(authDate.value), ParseDecimal(id.value);
        var (lastName, rest1) := TakeOptional("last_name", lines[3..]);
        var (photoUrl, rest2) := TakeOptional("photo_url", rest1);
        var (username, rest3) := TakeOptional("username", rest2);
        if d.None? || n.None? || d.value >= U64_LIMIT || n.value >= U64_LIMIT || rest3 != [] then None
        else Some(User(n.value, firstName.value, lastName, username, photoUrl, d.value))
  }

  predicate OptionNewlineFree(s: Option<string>) {
    s.Some? ==> NewlineFree(s.value)
  }

  predicate UserNewlineFree(u: User) {
    && NewlineFree(u.firstName) && OptionNewlineFree(u.lastName)
    && OptionNewlineFree(u.photoUrl) && OptionNewlineFree(u.username)
  }

  lemma AfterLine(key: string, value: string)
    ensures After(key, Line((key, value))) == Some(value)
  {
    var line := Line((key, value));
    assert line == (key + "=") + value;
    assert line[|key| + 1..] == value;
  }

  lemma TakeField(key: string, value: Option<string>, rest: seq<string>)
    requires value.None? ==> rest == [] || After(key, rest[0]).None?
    ensures TakeOptional(key, Lines(Optional(key, value)) + rest) == (value, rest)
  {
    if value.Some? {
      AfterLine(key, value.value);
      assert (Lines(Optional(key, value)) + rest)[1..] == rest;
    } else {
      assert Lines(Optional(key, value)) + rest == rest;
    }
  }

  lemma OtherKey(key: string, f: Field)
    requires key != [] && f.0 != [] && key[0] != f.0[0]
    ensures After(key, Line(f)).None?
  {
    assert (key + "=")[0] != Line(f)[0];
  }

  lemma FieldLines(u: User)
    ensures Lines(Fields(u)) ==
            [Line(("auth_date", Decimal(u.authDate))), Line(("first_name", u.firstName)), Line(("id", Decimal(u.id)))]
            + (Lines(Optional("last_name", u.lastName))
               + (Lines(Optional("photo_url", u.photoUrl))
                  + (Lines(Optional("username", u.username)) + [])))
  {
  }

  lemma LinesAreNewlineFree(u: User)
    requires UserNewlineFree(u)
    ensures forall line :: line in Lines(Fields(u)) ==> NewlineFree(line)
  {
    ParseOfDecimal(u.id);
    ParseOfDecimal(u.authDate);
    forall f | f in Fields(u) ensures NewlineFree(Line(f)) {
      assert NewlineFree(f.0) && NewlineFree(f.1);
    }
  }

  lemma DecodeLines(u: User, s: string)
    requires Split(s) == Lines(Fields(u))
    ensures Decode(s) == Some(u)
  {
    FieldLines(u);
    AfterLine("auth_date", Decimal(u.authDate));
    AfterLine("first_name", u.firstName);
    AfterLine("id", Decimal(u.id));
    ParseOfDecimal(u.id);
    ParseOfDecimal(u.authDate);
    var names := Lines(Optional("username", u.username)) + [];
    var photos := Lines(Optional("photo_url", u.photoUrl)) + names;
    if u.username.Some? {
      OtherKey("last_name", ("username", u.username.value));
      OtherKey("photo_url", ("username", u.username.value));
    }
    if u.photoUrl.Some? {
      OtherKey("last_name", ("photo_url", u.photoUrl.value));
    }
    TakeField("username", u.username, []);
    TakeField("photo_url", u.photoUrl, names);
    TakeField("last_name", u.lastName, photos);
    assert Split(s)[3..] == Lines(Optional("last_name", u.lastName)) + photos;
  }

  lemma TextLines(u: User)
    requires UserNewlineFree(u)
    ensures Split(Text(u)) == Lines(Fields(u))
  {
    LinesAreNewlineFree(u);
    SplitOfJoin(Lines(Fields(u)));
    SplitAllLines(Lines(Fields(u)));
  }

  /** Reading line by line, each up to the next newline, gives the user back
      exactly when no field contains a newline. */
  lemma ReadBackIffNewlineFree(u: User)
    ensures Decode(Text(u)) == Some(u) <==> UserNewlineFree(u)
  {
    if UserNewlineFree(u) {
      TextLines(u);
      DecodeLines(u, Text(u));
    }
    if Decode(Text(u)) == Some(u) {
      SplitLinesAreNewlineFree(Text(u));
      DecodedIsNewlineFree(Text(u));
    }
  }

  lemma DecodedIsNewlineFree(s: string)
    requires Decode(s).Some?
    requires forall line :: line in Split(s) ==> NewlineFree(line)
    ensures UserNewlineFree(Decode(s).value)
  {
    var lines := Split(s);
    assert lines[1] in lines;
    var rest1 := TakeOptional("last_name", lines[3..]).1;
    var rest2 := TakeOptional("photo_url", rest1).1;
    TakenIsNewlineFree("last_name", lines[3..]);
    TakenIsNewlineFree("photo_url", rest1);
    TakenIsNewlineFree("username", rest2);
  }

  lemma TakenIsNewlineFree(key: string, lines: seq<string>)
    requires forall line :: line in lines ==> NewlineFree(line)
    ensures OptionNewlineFree(TakeOptional(key, lines).0)
    ensures forall line :: line in TakeOptional(key, lines).1 ==> NewlineFree(line)
  {
    if lines != [] {
      assert lines[0] in lines;
    }
  }
}
