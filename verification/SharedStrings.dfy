/** Which users share a data-check-string: what of a user the string determines. */
module SharedStrings {
  import opened Wrappers
  import opened DataCheckString

  // ---------- Joining lines ----------

  lemma MergeLast(xs: seq<string>, a: string, b: string)
    ensures Join(xs + [a] + [b]) == Join(xs + [a + "\n" + b])
  {
    JoinAppend(xs + [a], b);
    if xs == [] {
      assert xs + [a] == [a] && xs + [a + "\n" + b] == [a + "\n" + b];
    } else {
      JoinAppend(xs, a);
      JoinAppend(xs, a + "\n" + b);
    }
  }

  /** Two neighbouring lines are one field that runs over both. */
  lemma {:induction false} Merge(xs: seq<string>, a: string, b: string, ys: seq<string>)
    ensures Join(xs + [a] + [b] + ys) == Join(xs + [a + "\n" + b] + ys)
  {
    var two, one := xs + [a] + [b], xs + [a + "\n" + b];
    if ys == [] {
      assert two + ys == two && one + ys == one;
      MergeLast(xs, a, b);
    } else {
      var init, last := ys[..|ys| - 1], ys[|ys| - 1];
      Merge(xs, a, b, init);
      JoinAppend(two + init, last);
      JoinAppend(one + init, last);
      assert two + ys == two + init + [last] && one + ys == one + init + [last];
    }
  }

  /** Lines may be joined in groups. */
  lemma {:induction false} JoinNested(xs: seq<string>, ys: seq<string>, zs: seq<string>)
    requires ys != []
    ensures Join(xs + [Join(ys)] + zs) == Join(xs + ys + zs)
    decreases |ys|
  {
    if |ys| == 1 {
      assert [Join(ys)] == ys;
    } else {
      var init, last := ys[..|ys| - 1], ys[|ys| - 1];
      Merge(xs, Join(init), last, zs);
      JoinNested(xs, init, [last] + zs);
      assert xs + [Join(init)] + [last] + zs == xs + [Join(init)] + ([last] + zs);
      assert xs + ys + zs == xs + init + ([last] + zs);
    }
  }

  lemma JoinGrow(lines: seq<string>, c: char)
    requires lines != []
    ensures Join(Grow(lines, c)) == Join(lines) + [c]
  {
    var init := lines[..|lines| - 1];
    if init != [] {
      assert lines == init + [lines[|lines| - 1]];
      JoinAppend(init, lines[|lines| - 1]);
      JoinAppend(init, lines[|lines| - 1] + [c]);
    }
  }

  lemma {:induction false} JoinOfSplit(s: string)
    ensures Join(Split(s)) == s
  {
    if s == [] {
    } else {
      var init, c := s[..|s| - 1], s[|s| - 1];
      JoinOfSplit(init);
      if c == '\n' {
        JoinAppend(Split(init), "");
      } else {
        JoinGrow(Split(init), c);
      }
    }
  }

  lemma LinesOfJoin(lines: seq<string>)
    requires lines != [] && forall line :: line in lines ==> NewlineFree(line)
    ensures Split(Join(lines)) == lines
  {
    SplitOfJoin(lines);
    SplitAllLines(lines);
  }

  lemma {:induction false} JoinStarts(lines: seq<string>, start: string)
    requires lines != [] && start <= lines[0]
    ensures start <= Join(lines)
  {
    if |lines| == 1 {
    } else {
      JoinStarts(lines[..|lines| - 1], start);
    }
  }

  lemma {:induction false} SplitStarts(s: string, start: string)
    requires NewlineFree(start) && start <= s
    ensures start <= Split(s)[0]
  {
    if s == start {
      SplitLine(s);
    } else {
      SplitStarts(s[..|s| - 1], start);
      SplitLast(s);
    }
  }

  /** A field may be read off the lines from one that starts with its key. */
  lemma FieldOfLines(key: string, lines: seq<string>) returns (value: string)
    requires lines != [] && After(key, lines[0]).Some?
    ensures Line((key, value)) == Join(lines)
  {
    JoinStarts(lines, key + "=");
    value := After(key, Join(lines)).value;
  }

  lemma FirstLineHasKey(key: string, value: string)
    requires NewlineFree(key)
    ensures After(key, Split(Line((key, value)))[0]).Some?
  {
    SplitStarts(Line((key, value)), key + "=");
  }

  // ---------- The lines of a string ----------

  function Optionals(u: User): seq<Field> {
    Optional("last_name", u.lastName) + Optional("photo_url", u.photoUrl) + Optional("username", u.username)
  }

  /** The lines of the optional fields, which a value with newlines continues. */
  function OptionalLines(u: User): seq<string> {
    SplitAll(Lines(Optionals(u)))
  }

  function SplitOptional(key: string, value: Option<string>): seq<string> {
    if value.Some? then Split(Line((key, value.value))) else []
  }

  lemma SplitAllOptional(key: string, value: Option<string>)
    ensures SplitAll(Lines(Optional(key, value))) == SplitOptional(key, value)
  {
    if value.Some? {
      assert Lines(Optional(key, value)) == [Line((key, value.value))];
      assert SplitAll([Line((key, value.value))][..0]) == [];
    }
  }

  lemma SplitFields(xs: seq<Field>, ys: seq<Field>)
    ensures SplitAll(Lines(xs + ys)) == SplitAll(Lines(xs)) + SplitAll(Lines(ys))
  {
    assert Lines(xs + ys) == Lines(xs) + Lines(ys);
    SplitAllConcat(Lines(xs), Lines(ys));
  }

  lemma SplitOptionals(u: User)
    ensures OptionalLines(u) == SplitOptional("last_name", u.lastName) + SplitOptional("photo_url", u.photoUrl)
                                + SplitOptional("username", u.username)
  {
    var last, photo, name :=
      Optional("last_name", u.lastName), Optional("photo_url", u.photoUrl), Optional("username", u.username);
    SplitFields(last + photo, name);
    SplitFields(last, photo);
    SplitAllOptional("last_name", u.lastName);
    SplitAllOptional("photo_url", u.photoUrl);
    SplitAllOptional("username", u.username);
  }

  /** The lines of any string, where only names may run over several. */
  lemma AnyTextLines(u: User)
    ensures Split(Text(u)) == [Line(("auth_date", Decimal(u.authDate)))] + Split(Line(("first_name", u.firstName)))
                              + [Line(("id", Decimal(u.id)))] + OptionalLines(u)
  {
    SplitOfJoin(Lines(Fields(u)));
    assert Fields(u) == Required(u) + Optionals(u);
    SplitFields(Required(u), Optionals(u));
    SplitAllRequired(u);
  }

  lemma SplitAllRequired(u: User)
    ensures SplitAll(Lines(Required(u))) ==
            [Line(("auth_date", Decimal(u.authDate)))] + Split(Line(("first_name", u.firstName)))
            + [Line(("id", Decimal(u.id)))]
  {
    var lines := Lines(Required(u));
    ParseOfDecimal(u.authDate);
    ParseOfDecimal(u.id);
    assert NewlineFree(lines[0]) && NewlineFree(lines[2]);
    SplitLine(lines[0]);
    SplitLine(lines[2]);
    assert lines[..2][..1] == lines[..1] && lines[..1][..0] == [];
    assert SplitAll(lines[..1]) == [lines[0]];
    assert SplitAll(lines[..2]) == SplitAll(lines[..1]) + Split(lines[1]);
  }

  /** The keys of the optional fields in their order. */
  function Key(rank: nat): string {
    if rank == 1 then "last_name" else if rank == 2 then "photo_url" else "username"
  }

  /** Which optional field a line can start, or 0. */
  function Rank(line: string): nat {
    if After(Key(1), line).Some? then 1
    else if After(Key(2), line).Some? then 2
    else if After(Key(3), line).Some? then 3
    else 0
  }

  predicate OptionalLine(line: string) {
    Rank(line) > 0
  }

  /** Line `k` can be the id line of a user with id `n`: what follows, if
      anything, starts an optional field. */
  predicate ReadsAsId(lines: seq<string>, k: nat, n: u64) {
    2 <= k < |lines| && lines[k] == Line(("id", Decimal(n))) && (k + 1 == |lines| || OptionalLine(lines[k + 1]))
  }

  ghost predicate OneReading(lines: seq<string>) {
    forall k: nat, n: u64, j: nat, m: u64 :: ReadsAsId(lines, k, n) && ReadsAsId(lines, j, m) ==> k == j
  }

  /** After an id no line starts an optional field that goes after the first. */
  ghost predicate NoLaterField(lines: seq<string>) {
    forall k: nat, n: u64, j: nat :: ReadsAsId(lines, k, n) && k + 1 < j < |lines|
      ==> Rank(lines[j]) <= Rank(lines[k + 1])
  }

  lemma RankOf(rank: nat, line: string)
    requires 1 <= rank <= 3 && After(Key(rank), line).Some?
    ensures Rank(line) == rank
  {
    assert (Key(rank) + "=")[0] == line[0];
  }

  lemma FirstLineRank(rank: nat, value: string)
    requires 1 <= rank <= 3
    ensures Rank(Split(Line((Key(rank), value)))[0]) == rank
  {
    FirstLineHasKey(Key(rank), value);
    RankOf(rank, Split(Line((Key(rank), value)))[0]);
  }

  function OptionalOf(u: User, rank: nat): Option<string> {
    if rank == 1 then u.lastName else if rank == 2 then u.photoUrl else u.username
  }

  lemma SplitRanks(u: User)
    ensures OptionalLines(u) == SplitOptional(Key(1), OptionalOf(u, 1)) + SplitOptional(Key(2), OptionalOf(u, 2))
                                + SplitOptional(Key(3), OptionalOf(u, 3))
    ensures forall r :: 1 <= r <= 3 && OptionalOf(u, r).Some? ==> Rank(SplitOptional(Key(r), OptionalOf(u, r))[0]) == r
  {
    SplitOptionals(u);
    forall r | 1 <= r <= 3 && OptionalOf(u, r).Some?
      ensures Rank(SplitOptional(Key(r), OptionalOf(u, r))[0]) == r
    {
      FirstLineRank(r, OptionalOf(u, r).value);
    }
  }

  /** Where the id of a user is in its string. */
  function IdIndex(u: User): nat {
    1 + |Split(Line(("first_name", u.firstName)))|
  }

  lemma Parts(lines: seq<string>, a: string, xs: seq<string>, b: string, ys: seq<string>)
    requires lines == [a] + xs + [b] + ys
    ensures |lines| == |xs| + 2 + |ys| && lines[0] == a && lines[|xs| + 1] == b
    ensures lines[1..|xs| + 1] == xs && lines[|xs| + 2..] == ys
  {
  }

  /** The parts of a string, by line. */
  lemma TextParts(u: User)
    ensures var lines, k := Split(Text(u)), IdIndex(u);
            && 2 <= k < |lines|
            && lines[0] == Line(("auth_date", Decimal(u.authDate)))
            && lines[1..k] == Split(Line(("first_name", u.firstName)))
            && lines[k] == Line(("id", Decimal(u.id)))
            && lines[k + 1..] == OptionalLines(u)
  {
    AnyTextLines(u);
    Parts(Split(Text(u)), Line(("auth_date", Decimal(u.authDate))), Split(Line(("first_name", u.firstName))),
          Line(("id", Decimal(u.id))), OptionalLines(u));
  }

  /** Every user reads its own id in its string. */
  lemma OwnReading(w: User)
    ensures ReadsAsId(Split(Text(w)), IdIndex(w), w.id)
  {
    TextParts(w);
    SplitRanks(w);
    var lines, k := Split(Text(w)), IdIndex(w);
    if k + 1 < |lines| {
      assert lines[k + 1] == lines[k + 1..][0];
    }
  }

  lemma SameLine(key: string, v: string, w: string)
    requires Line((key, v)) == Line((key, w))
    ensures v == w
  {
    AfterLine(key, v);
    AfterLine(key, w);
  }

  lemma SameNumber(key: string, n: nat, m: nat)
    requires Line((key, Decimal(n))) == Line((key, Decimal(m)))
    ensures n == m
  {
    SameLine(key, Decimal(n), Decimal(m));
    ParseOfDecimal(n);
    ParseOfDecimal(m);
  }

  lemma SameValue(key: string, v: string, w: string)
    requires Split(Line((key, v))) == Split(Line((key, w)))
    ensures v == w
  {
    JoinOfSplit(Line((key, v)));
    JoinOfSplit(Line((key, w)));
    SameLine(key, v, w);
  }

  /** Users that read their id in the same place of one string agree on
      everything but the optional fields. */
  lemma SameReading(u: User, w: User)
    requires Text(w) == Text(u) && IdIndex(w) == IdIndex(u)
    ensures w.id == u.id && w.authDate == u.authDate && w.firstName == u.firstName
    ensures OptionalLines(w) == OptionalLines(u)
  {
    TextParts(u);
    TextParts(w);
    SameNumber("auth_date", u.authDate, w.authDate);
    SameNumber("id", u.id, w.id);
    SameValue("first_name", u.firstName, w.firstName);
  }

  // ---------- Another user for each reading ----------

  predicate NoOptional(u: User) {
    u.lastName == None && u.photoUrl == None && u.username == None
  }

  predicate AtMostOneOptional(u: User) {
    && !(u.lastName.Some? && u.photoUrl.Some?)
    && !(u.lastName.Some? && u.username.Some?)
    && !(u.photoUrl.Some? && u.username.Some?)
  }

  function WithOptional(u: User, rank: nat, value: string): User {
    if rank == 1 then u.(lastName := Some(value))
    else if rank == 2 then u.(photoUrl := Some(value))
    else u.(username := Some(value))
  }

  lemma FieldsOfOne(u: User, rank: nat, value: string)
    requires NoOptional(u) && 1 <= rank <= 3
    ensures Fields(WithOptional(u, rank, value)) == Required(u) + [(Key(rank), value)]
  {
  }

  lemma FieldsOfTwo(u: User, r: nat, v: string, q: nat, x: string)
    requires NoOptional(u) && 1 <= r < q <= 3
    ensures Fields(WithOptional(WithOptional(u, r, v), q, x)) == Required(u) + [(Key(r), v)] + [(Key(q), x)]
  {
  }

  lemma FirstNameStarts(u: User)
    ensures |Split(Text(u))| > 2 && After("first_name", Split(Text(u))[1]).Some?
  {
    TextParts(u);
    FirstLineHasKey("first_name", u.firstName);
    assert Split(Text(u))[1] == Split(Text(u))[1..IdIndex(u)][0];
  }

  /** The lines between the date and line `k`, as a first name. */
  lemma NameOfLines(u: User, k: nat) returns (firstName: string)
    requires 2 <= k < |Split(Text(u))|
    ensures Line(("first_name", firstName)) == Join(Split(Text(u))[1..k])
    ensures Split(Line(("first_name", firstName))) == Split(Text(u))[1..k]
  {
    var lines := Split(Text(u));
    FirstNameStarts(u);
    firstName := FieldOfLines("first_name", lines[1..k]);
    SplitLinesAreNewlineFree(Text(u));
    LinesOfJoin(lines[1..k]);
  }

  lemma RequiredLinesOf(u: User)
    ensures Lines(Required(u)) ==
            [Line(("auth_date", Decimal(u.authDate))), Line(("first_name", u.firstName)), Line(("id", Decimal(u.id)))]
  {
  }

  /** `base` takes the lines up to `k`. */
  predicate IsBase(lines: seq<string>, k: nat, base: User) {
    2 <= k < |lines| && NoOptional(base) && Lines(Required(base)) == [lines[0], Join(lines[1..k]), lines[k]]
  }

  /** A user with the date, the lines up to a reading as first name, and its id. */
  lemma Base(u: User, k: nat, n: u64) returns (base: User)
    requires ReadsAsId(Split(Text(u)), k, n)
    ensures IsBase(Split(Text(u)), k, base) && base.id == n && IdIndex(base) == k
  {
    var firstName := NameOfLines(u, k);
    base := User(n, firstName, None, None, None, u.authDate);
    TextParts(u);
    RequiredLinesOf(base);
  }

  lemma JoinHead(lines: seq<string>, k: nat, tail: seq<string>)
    requires 2 <= k < |lines|
    ensures Join([lines[0], Join(lines[1..k]), lines[k]] + tail) == Join(lines[..k + 1] + tail)
  {
    var zs := [lines[k]] + tail;
    JoinNested([lines[0]], lines[1..k], zs);
    assert [lines[0]] + [Join(lines[1..k])] + zs == [lines[0], Join(lines[1..k]), lines[k]] + tail;
    assert [lines[0]] + lines[1..k] + zs == lines[..k + 1] + tail;
  }

  lemma JoinLast(xs: seq<string>, ys: seq<string>)
    requires ys != []
    ensures Join(xs + [Join(ys)]) == Join(xs + ys)
  {
    JoinNested(xs, ys, []);
    assert xs + [Join(ys)] + [] == xs + [Join(ys)] && xs + ys + [] == xs + ys;
  }

  lemma JoinLastTwo(xs: seq<string>, ys: seq<string>, zs: seq<string>)
    requires ys != [] && zs != []
    ensures Join(xs + [Join(ys)] + [Join(zs)]) == Join(xs + ys + zs)
  {
    JoinNested(xs, ys, [Join(zs)]);
    JoinLast(xs + ys, zs);
  }

  lemma Slices(lines: seq<string>, k: nat, j: nat)
    requires k <= j <= |lines|
    ensures lines[..k] + lines[k..j] + lines[j..] == lines && lines[..k] + lines[k..] == lines
  {
  }

  lemma RebuiltAlone(u: User, k: nat, base: User)
    requires IsBase(Split(Text(u)), k, base) && k + 1 == |Split(Text(u))|
    ensures Text(base) == Text(u)
  {
    var lines := Split(Text(u));
    JoinOfSplit(Text(u));
    JoinHead(lines, k, []);
    TextOfNone(base);
    assert lines[..k + 1] + [] == lines && Lines(Required(base)) + [] == Lines(Required(base));
  }

  lemma RebuiltWithField(u: User, k: nat, base: User, rank: nat, value: string)
    requires IsBase(Split(Text(u)), k, base) && k + 1 < |Split(Text(u))|
    requires 1 <= rank <= 3 && Line((Key(rank), value)) == Join(Split(Text(u))[k + 1..])
    ensures Text(WithOptional(base, rank, value)) == Text(u)
  {
    var lines := Split(Text(u));
    JoinOfSplit(Text(u));
    JoinHead(lines, k, [Join(lines[k + 1..])]);
    JoinLast(lines[..k + 1], lines[k + 1..]);
    Slices(lines, k + 1, k + 1);
    TextOfOne(base, rank, value);
  }

  /** What follows the reading, if anything, becomes one optional field. */
  lemma Rebuilt(u: User, k: nat, n: u64) returns (w: User)
    requires ReadsAsId(Split(Text(u)), k, n)
    ensures Text(w) == Text(u) && w.id == n && IdIndex(w) == k && AtMostOneOptional(w)
  {
    var lines := Split(Text(u));
    w := Base(u, k, n);
    if k + 1 == |lines| {
      RebuiltAlone(u, k, w);
    } else {
      var rank := Rank(lines[k + 1]);
      var value := FieldOfLines(Key(rank), lines[k + 1..]);
      RebuiltWithField(u, k, w, rank, value);
      w := WithOptional(w, rank, value);
    }
  }

  lemma TextOfNone(u: User)
    requires NoOptional(u)
    ensures Text(u) == Join(Lines(Required(u)))
  {
    assert Fields(u) == Required(u);
  }

  lemma TextOfOne(u: User, rank: nat, value: string)
    requires NoOptional(u) && 1 <= rank <= 3
    ensures Text(WithOptional(u, rank, value)) == Join(Lines(Required(u)) + [Line((Key(rank), value))])
  {
    FieldsOfOne(u, rank, value);
    assert Lines(Required(u) + [(Key(rank), value)]) == Lines(Required(u)) + [Line((Key(rank), value))];
  }

  lemma TextOfTwo(u: User, r: nat, v: string, q: nat, x: string)
    requires NoOptional(u) && 1 <= r < q <= 3
    ensures Text(WithOptional(WithOptional(u, r, v), q, x)) ==
            Join(Lines(Required(u)) + [Line((Key(r), v))] + [Line((Key(q), x))])
  {
    FieldsOfTwo(u, r, v, q, x);
    assert Lines(Required(u) + [(Key(r), v)] + [(Key(q), x)]) ==
           Lines(Required(u)) + [Line((Key(r), v))] + [Line((Key(q), x))];
  }

  /** A later line that starts a later field makes two of it. */
  lemma RebuiltInTwo(u: User, k: nat, n: u64, j: nat) returns (w: User)
    requires var lines := Split(Text(u));
             ReadsAsId(lines, k, n) && k + 1 < j < |lines| && Rank(lines[j]) > Rank(lines[k + 1])
    ensures Text(w) == Text(u) && !AtMostOneOptional(w)
  {
    var lines := Split(Text(u));
    var r, q := Rank(lines[k + 1]), Rank(lines[j]);
    JoinOfSplit(Text(u));
    w := Base(u, k, n);
    var v := FieldOfLines(Key(r), lines[k + 1..j]);
    var x := FieldOfLines(Key(q), lines[j..]);
    JoinHead(lines, k, [Join(lines[k + 1..j])] + [Join(lines[j..])]);
    JoinLastTwo(lines[..k + 1], lines[k + 1..j], lines[j..]);
    Slices(lines, k + 1, j);
    TextOfTwo(w, r, v, q, x);
    Associative(Lines(Required(w)), [Join(lines[k + 1..j])], [Join(lines[j..])]);
    Associative(lines[..k + 1], [Join(lines[k + 1..j])], [Join(lines[j..])]);
    w := WithOptional(WithOptional(w, r, v), q, x);
  }

  // ---------- What the string determines ----------

  ghost predicate OnlyReadsAs(lines: seq<string>, id: u64) {
    forall k: nat, n: u64 :: ReadsAsId(lines, k, n) ==> n == id
  }

  /** The string determines the id exactly if no line of it reads as another:
      whatever the fields are, and among all users. */
  lemma IdIffReadings(u: User)
    ensures (forall w :: Text(w) == Text(u) ==> w.id == u.id) <==> OnlyReadsAs(Split(Text(u)), u.id)
  {
    if forall w :: Text(w) == Text(u) ==> w.id == u.id {
      forall k: nat, n: u64 | ReadsAsId(Split(Text(u)), k, n) ensures n == u.id {
        var w := Rebuilt(u, k, n);
        assert Text(w) == Text(u);
      }
    }
    if OnlyReadsAs(Split(Text(u)), u.id) {
      forall w | Text(w) == Text(u) ensures w.id == u.id {
        OwnReading(w);
      }
    }
  }

  predicate SameRequired(u: User, w: User) {
    w.id == u.id && w.authDate == u.authDate && w.firstName == u.firstName
  }

  lemma OneReadingDetermines(u: User, w: User)
    requires OneReading(Split(Text(u))) && Text(w) == Text(u)
    ensures SameRequired(u, w) && OptionalLines(w) == OptionalLines(u)
  {
    OwnReading(u);
    OwnReading(w);
    SameReading(u, w);
  }

  /** It determines id, date and first name together exactly if one line reads
      as an id. */
  lemma RequiredIffOneReading(u: User)
    ensures (forall w :: Text(w) == Text(u) ==> SameRequired(u, w)) <==> OneReading(Split(Text(u)))
  {
    if forall w :: Text(w) == Text(u) ==> SameRequired(u, w) {
      forall k: nat, n: u64 | ReadsAsId(Split(Text(u)), k, n) ensures k == IdIndex(u) {
        var w := Rebuilt(u, k, n);
        assert SameRequired(u, w);
      }
    }
    if OneReading(Split(Text(u))) {
      forall w | Text(w) == Text(u) ensures SameRequired(u, w) {
        OneReadingDetermines(u, w);
      }
    }
  }

  lemma SameOptionals(u: User, w: User)
    requires OptionalLines(w) == OptionalLines(u)
    requires forall j :: 0 < j < |OptionalLines(u)| ==> Rank(OptionalLines(u)[j]) <= Rank(OptionalLines(u)[0])
    ensures w.lastName == u.lastName && w.photoUrl == u.photoUrl && w.username == u.username
  {
    OneOptional(u);
    OneOptional(w);
    assert OptionalOf(w, 1) == OptionalOf(u, 1) && OptionalOf(w, 2) == OptionalOf(u, 2);
    assert OptionalOf(w, 3) == OptionalOf(u, 3);
  }

  /** Where no line starts a later field, the lines are those of the field that
      the first one starts. */
  lemma OneOptional(u: User)
    requires forall j :: 0 < j < |OptionalLines(u)| ==> Rank(OptionalLines(u)[j]) <= Rank(OptionalLines(u)[0])
    ensures var lines := OptionalLines(u);
            forall r :: 1 <= r <= 3 ==>
              OptionalOf(u, r) == if lines != [] && Rank(lines[0]) == r then After(Key(r), Join(lines)) else None
  {
    SplitRanks(u);
    var lines := OptionalLines(u);
    var a, b := SplitOptional(Key(1), OptionalOf(u, 1)), SplitOptional(Key(2), OptionalOf(u, 2));
    var c := SplitOptional(Key(3), OptionalOf(u, 3));
    assert lines == a + b + c;
    if b != [] {
      assert lines[|a|] == b[0];
    }
    if c != [] {
      assert lines[|a| + |b|] == c[0];
    }
    forall r | 1 <= r <= 3 && OptionalOf(u, r).Some? ensures lines == SplitOptional(Key(r), OptionalOf(u, r)) {
    }
    forall r | 1 <= r <= 3 && OptionalOf(u, r).Some? ensures OptionalOf(u, r) == After(Key(r), Join(lines)) {
      JoinOfSplit(Line((Key(r), OptionalOf(u, r).value)));
      AfterLine(Key(r), OptionalOf(u, r).value);
    }
  }

  /** A user is the only one with its string exactly if one line reads as an id
      and no later line starts a field that goes after the first. */
  lemma UniqueIffOneReading(u: User)
    ensures (forall w :: Text(w) == Text(u) ==> w == u) <==>
            OneReading(Split(Text(u))) && NoLaterField(Split(Text(u)))
  {
    var lines := Split(Text(u));
    RequiredIffOneReading(u);
    if forall w :: Text(w) == Text(u) ==> w == u {
      forall k: nat, n: u64, j: nat | ReadsAsId(lines, k, n) && k + 1 < j < |lines|
        ensures Rank(lines[j]) <= Rank(lines[k + 1])
      {
        var w := Rebuilt(u, k, n);
        if Rank(lines[j]) > Rank(lines[k + 1]) {
          var x := RebuiltInTwo(u, k, n, j);
          assert false;
        }
      }
    }
    if OneReading(lines) && NoLaterField(lines) {
      forall w | Text(w) == Text(u) ensures w == u {
        OneReadingDetermines(u, w);
        OptionalsFollow(u);
        SameOptionals(u, w);
      }
    }
  }

  lemma OptionalsFollow(u: User)
    requires NoLaterField(Split(Text(u)))
    ensures forall j :: 0 < j < |OptionalLines(u)| ==> Rank(OptionalLines(u)[j]) <= Rank(OptionalLines(u)[0])
  {
    OwnReading(u);
    TextParts(u);
    var lines, k := Split(Text(u)), IdIndex(u);
    forall j | 0 < j < |OptionalLines(u)| ensures Rank(OptionalLines(u)[j]) <= Rank(OptionalLines(u)[0]) {
      assert lines[k + 1 + j] == lines[k + 1..][j] && lines[k + 1] == lines[k + 1..][0];
    }
  }

  // ---------- Users without newlines ----------

  /** The third line of a user without newlines is the only one that can be an id. */
  lemma IdLineIsThird(u: User, i: nat)
    requires i < |Lines(Fields(u))| && After("id", Lines(Fields(u))[i]).Some?
    ensures i == 2
  {
    var f := Fields(u)[i];
    assert f.0 != [] && (f.0[0] == 'i' ==> i == 2);
    if f.0[0] != 'i' {
      OtherKey("id", f);
    }
  }

  lemma NewlineFreeReadsOnce(u: User)
    requires UserNewlineFree(u)
    ensures Split(Text(u)) == Lines(Fields(u))
    ensures forall k: nat, n: u64 :: ReadsAsId(Split(Text(u)), k, n) ==> k == 2
  {
    TextLines(u);
    forall k: nat, n: u64 | ReadsAsId(Split(Text(u)), k, n) ensures k == 2 {
      AfterLine("id", Decimal(n));
      IdLineIsThird(u, k);
    }
  }

  /** Whatever another user is like, a string of a user without newlines
      determines the id, the date and the first name. */
  lemma RequiredIsDetermined(u: User, w: User)
    requires UserNewlineFree(u) && Text(w) == Text(u)
    ensures w.id == u.id && w.authDate == u.authDate && w.firstName == u.firstName
    ensures OptionalLines(w) == OptionalLines(u)
  {
    NewlineFreeReadsOnce(u);
    OneReadingDetermines(u, w);
  }

  lemma RanksOfFields(u: User)
    ensures var lines := Lines(Optionals(u));
            && (forall i, j :: 0 <= i < j < |lines| ==> Rank(lines[i]) < Rank(lines[j]))
            && (|lines| <= 1 <==> AtMostOneOptional(u))
  {
    forall r | 1 <= r <= 3 && OptionalOf(u, r).Some? ensures Rank(Line((Key(r), OptionalOf(u, r).value))) == r {
      AfterLine(Key(r), OptionalOf(u, r).value);
      RankOf(r, Line((Key(r), OptionalOf(u, r).value)));
    }
    assert OptionalOf(u, 1) == u.lastName && OptionalOf(u, 2) == u.photoUrl && OptionalOf(u, 3) == u.username;
  }

  lemma RequiredThenOptional(u: User)
    ensures Lines(Fields(u)) == Lines(Required(u)) + Lines(Optionals(u)) && |Lines(Required(u))| == 3
  {
    assert Fields(u) == Required(u) + Optionals(u);
  }

  lemma LaterFieldIffMany(required: seq<string>, optionals: seq<string>, id: u64)
    requires |required| == 3 && ReadsAsId(required + optionals, 2, id)
    requires forall k: nat, n: u64 :: ReadsAsId(required + optionals, k, n) ==> k == 2
    requires forall i, j :: 0 <= i < j < |optionals| ==> Rank(optionals[i]) < Rank(optionals[j])
    ensures NoLaterField(required + optionals) <==> |optionals| <= 1
  {
    var lines := required + optionals;
    assert |optionals| > 1 ==> Rank(lines[4]) > Rank(lines[3]);
  }

  /** A user without newlines is the only one with its string exactly if it has
      at most one optional field. */
  lemma UniqueIffFewOptionals(u: User)
    requires UserNewlineFree(u)
    ensures (forall w :: Text(w) == Text(u) ==> w == u) <==> AtMostOneOptional(u)
  {
    UniqueIffOneReading(u);
    NewlineFreeReadsOnce(u);
    OwnReading(u);
    RanksOfFields(u);
    RequiredThenOptional(u);
    LaterFieldIffMany(Lines(Required(u)), Lines(Optionals(u)), u.id);
  }

  // ---------- A collision for any two ids ----------

  /** A value that swallows the field written next. */
  function Swallow(value: string, f: Field): string {
    value + "\n" + f.0 + "=" + f.1
  }

  lemma MergeFields(before: seq<Field>, f: Field, g: Field, after: seq<Field>)
    ensures Join(Lines(before + [f] + [g] + after)) == Join(Lines(before + [(f.0, Swallow(f.1, g))] + after))
  {
    assert Lines(before + [f] + [g] + after) == Lines(before) + [Line(f)] + [Line(g)] + Lines(after);
    SwallowedLine(f, g);
    assert Lines(before + [(f.0, Swallow(f.1, g))] + after) == Lines(before) + [Line(f) + "\n" + Line(g)] + Lines(after);
    Merge(Lines(before), Line(f), Line(g), Lines(after));
  }

  lemma SwallowedLine(f: Field, g: Field)
    ensures Line((f.0, Swallow(f.1, g))) == Line(f) + "\n" + Line(g)
  {
  }

  lemma ThreeLines(date: Field, first: Field, other: Field, last: Field, mine: Field)
    ensures Join(Lines([date, (first.0, Swallow(Swallow(first.1, other), last)), mine])) ==
            Join(Lines([date, first, other, (last.0, Swallow(last.1, mine))]))
  {
    var both := (first.0, Swallow(first.1, other));
    MergeFields([date, first, other], last, mine, []);
    MergeFields([date], first, other, [last, mine]);
    MergeFields([date], both, last, [mine]);
    assert [date, first, other] + [last] + [mine] + [] == [date] + [first] + [other] + [last, mine];
    assert [date, first, other] + [(last.0, Swallow(last.1, mine))] + []
        == [date, first, other, (last.0, Swallow(last.1, mine))];
    assert [date] + [both] + [last, mine] == [date] + [both] + [last] + [mine];
    assert [date] + [(both.0, Swallow(both.1, last))] + [mine] == [date, (both.0, Swallow(both.1, last)), mine];
  }

  lemma ImitatedText(u: User, w: User, x: string, other: Field, last: Field)
    requires Required(u) == [Required(w)[0], (Required(w)[1].0, Swallow(Swallow(x, other), last)), Required(u)[2]]
    requires Required(w) == [Required(w)[0], (Required(w)[1].0, x), other]
    requires Fields(u) == Required(u) && Fields(w) == Required(w) + [(last.0, Swallow(last.1, Required(u)[2]))]
    ensures Text(u) == Text(w)
  {
    ThreeLines(Required(w)[0], (Required(w)[1].0, x), other, last, Required(u)[2]);
    assert Fields(w) == [Required(w)[0], (Required(w)[1].0, x), other, (last.0, Swallow(last.1, Required(u)[2]))];
  }

  /** A first name with newlines can imitate the lines of another user: for any
      two ids there are users of the same string. */
  lemma IdIsNotDetermined(x: string, y: string, i: u64, j: u64, authDate: u64)
    ensures Text(User(i, Swallow(Swallow(x, ("id", Decimal(j))), ("last_name", y)), None, None, None, authDate)) ==
            Text(User(j, x, Some(Swallow(y, ("id", Decimal(i)))), None, None, authDate))
  {
    var other, last := ("id", Decimal(j)), ("last_name", y);
    ImitatedText(User(i, Swallow(Swallow(x, other), last), None, None, None, authDate),
                 User(j, x, Some(Swallow(y, ("id", Decimal(i)))), None, None, authDate), x, other, last);
  }
}
