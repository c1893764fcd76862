/**
  The statement generator of the `friends` package.

  Given the dependency parse of a Japanese sentence (a sequence of chunks, each
  holding morphemes and the id of the chunk it depends on), `Say` looks for the
  pattern "X は Y が 得意" and answers
    すごーい！{X}は{Y}が得意なフレンズなんだね！
  rewriting a first-person X into きみ / きみたち.  When the pattern is absent
  the answer is the empty string.

  The parse itself is done by a remote service; here its outcome is an input.
*/
module Friends {

  // ---------------------------------------------------------------------------
  // Data model
  // ---------------------------------------------------------------------------

  /** A morpheme: its literal text and its part-of-speech tag. */
  datatype Token = Token(surface: string, pos: string)

  /** A syntactic chunk: its id, the id of the chunk it depends on, and its morphemes. */
  datatype Chunk = Chunk(id: int, head: int, tokens: seq<Token>)

  /** What the parse service hands back: the chunks of the sentence, or a failure. */
  datatype ParseOutcome = Parsed(chunks: seq<Chunk>) | ParseFailed(cause: string)

  datatype Option<T> = None | Some(value: T)

  /** The caller-facing answer: a statement (possibly empty), or a wrapped parse error. */
  datatype Result<T> = Success(value: T) | Failure(error: string)

  const Noun := "名詞"
  const Particle := "助詞"
  const GoodAt := "得意"
  const Topic := "は"
  const ParseErrorContext := "fail to parse the text: "
  const Opening := "すごーい！"
  const Closing := "が得意なフレンズなんだね！"

  // ---------------------------------------------------------------------------
  // First-person normalisation
  // ---------------------------------------------------------------------------

  /**
    Membership in the fixed list of first-person words, in the order the list is written (あたし
    is listed twice).  The search over the list stops at the first equal entry
    and reports only whether one exists, so the list is modelled by this test.
  */
  predicate IsFirstPersonWord(s: string)
  {
    || s == "私" || s == "わたし" || s == "ワタシ" || s == "わたくし" || s == "ワタクシ" || s == "自分" || s == "じぶん" || s == "ジブン"
    || s == "僕" || s == "ぼく" || s == "ボク" || s == "俺" || s == "おれ" || s == "オレ" || s == "儂" || s == "わし" || s == "ワシ"
    || s == "あたし" || s == "あたし" || s == "あたくし" || s == "アタクシ" || s == "あてくし" || s == "アテクシ" || s == "あたい" || s == "アタイ"
    || s == "わい" || s == "ワイ" || s == "わて" || s == "ワテ" || s == "あて" || s == "アテ" || s == "わだす" || s == "ワダス" || s == "あだす" || s == "アダス" || s == "わす" || s == "ワス"
    || s == "内" || s == "うち" || s == "ウチ" || s == "己等" || s == "おいら" || s == "オイラ" || s == "俺ら" || s == "おら" || s == "オラ" || s == "おい" || s == "オイ" || s == "おいどん" || s == "オイドン" || s == "うら" || s == "ウラ"
    || s == "わ" || s == "ワ" || s == "わー" || s == "ワー" || s == "ぼくちゃん" || s == "ボクチャン" || s == "ぼくちん" || s == "ボクチン" || s == "おれっち" || s == "オレッチ"
  }

  predicate EndsWith(s: string, suffix: string)
  {
    |suffix| <= |s| && s[|s| - |suffix|..] == suffix
  }

  /** True when the subject carries one of the plural markers 達, たち or ら. */
  predicate HasPluralSuffix(s: string)
  {
    EndsWith(s, "達") || EndsWith(s, "たち") || EndsWith(s, "ら")
  }

  /** The subject with its last rune dropped when it carries a plural marker. */
  function Stem(s: string): (r: string)
    ensures r <= s
    ensures |s| - |r| == if HasPluralSuffix(s) then 1 else 0
    ensures EndsWith(s, "たち") ==> EndsWith(r, "た")
  {
    if HasPluralSuffix(s) then s[..|s| - 1] else s
  }

  /**
    The replacement for a first-person subject and whether one applies:
    ("きみ", true) for the empty subject or a listed word, ("きみたち", true)
    for a listed word carrying a plural marker, ("", false) otherwise.
  */
  function FirstPerson(subject: string): (r: (string, bool))
  {
    if subject == "" then ("きみ", true)
    else
      var plural := HasPluralSuffix(subject);
      var stem := Stem(subject);
      if IsFirstPersonWord(stem) then
        if plural then ("きみたち", true) else ("きみ", true)
      else ("", false)
  }

  /** The subject as it appears in the statement: replaced when `FirstPerson` matches. */
  function Address(subject: string): string
  {
    var (sub, ok) := FirstPerson(subject);
    if ok then sub else subject
  }

  /** The replacement is きみ or きみたち when one applies and empty otherwise; きみたち needs a plural marker. */
  lemma {:induction false} FirstPersonRange(subject: string)
    ensures FirstPerson(subject).1 ==> FirstPerson(subject).0 in {"きみ", "きみたち"}
    ensures !FirstPerson(subject).1 ==> FirstPerson(subject).0 == ""
    ensures FirstPerson(subject).0 == "きみたち" ==> HasPluralSuffix(subject)
  {
  }

  lemma FirstPersonEmpty()
    ensures FirstPerson("") == ("きみ", true)
    ensures Address("") == "きみ"
  {
  }

  /**
    `FirstPerson` unfolded for a non-empty subject, in terms of its stem; the
    single-word facts below go through it.
  */
  lemma {:induction false} FirstPersonByStem(subject: string)
    requires subject != ""
    ensures FirstPerson(subject).1 <==> IsFirstPersonWord(Stem(subject))
    ensures FirstPerson(subject).1 ==>
      FirstPerson(subject).0 == (if HasPluralSuffix(subject) then "きみたち" else "きみ")
    ensures !FirstPerson(subject).1 ==> Address(subject) == subject
  {
  }

  /**
    Every listed word without a plural marker is addressed as きみ, and with 達
    or ら appended as きみたち.
  */
  lemma {:induction false} ListedWordAddressed(w: string)
    requires IsFirstPersonWord(w) && !HasPluralSuffix(w)
    ensures FirstPerson(w) == ("きみ", true)
    ensures FirstPerson(w + "達") == ("きみたち", true)
    ensures FirstPerson(w + "ら") == ("きみたち", true)
  {
    assert EndsWith(w + "達", "達");
    assert (w + "達")[..|w|] == w;
    assert EndsWith(w + "ら", "ら");
    assert (w + "ら")[..|w|] == w;
  }

  /**
    たち loses only its ち: a subject ending in たち matches exactly when the
    stem keeping た is listed, and then it is plural.
  */
  lemma {:induction false} TachiKeepsTa(w: string)
    ensures FirstPerson(w + "たち").1 <==> IsFirstPersonWord(w + "た")
    ensures FirstPerson(w + "たち").1 ==> FirstPerson(w + "たち").0 == "きみたち"
  {
    assert EndsWith(w + "たち", "たち");
    assert (w + "たち")[..|w| + 1] == w + "た";
  }


  /** 僕 is listed: addressed as きみ. */
  lemma FirstPersonSingular()
    ensures FirstPerson("僕") == ("きみ", true)
  {
    FirstPersonByStem("僕");
    assert !HasPluralSuffix("僕");
    assert IsFirstPersonWord("僕");
  }

  /** 俺ら is the plural of a listed word: addressed as きみたち. */
  lemma FirstPersonPluralRa()
    ensures FirstPerson("俺ら") == ("きみたち", true)
  {
    FirstPersonByStem("俺ら");
    assert EndsWith("俺ら", "ら");
    assert Stem("俺ら") == "俺";
    assert IsFirstPersonWord("俺");
  }

  /** Likewise 私達. */
  lemma FirstPersonPluralTachi()
    ensures FirstPerson("私達") == ("きみたち", true)
  {
    FirstPersonByStem("私達");
    assert EndsWith("私達", "達");
    assert Stem("私達") == "私";
    assert IsFirstPersonWord("私");
  }

  /** A name is not a first-person word and stays as it is. */
  lemma FirstPersonName()
    ensures FirstPerson("太郎") == ("", false)
    ensures Address("太郎") == "太郎"
  {
    FirstPersonByStem("太郎");
    assert !HasPluralSuffix("太郎");
    assert !IsFirstPersonWord("太郎");
  }

  /** たち loses only its ち, and 僕た is not listed: 僕たち is left unchanged. */
  lemma FirstPersonTachi()
    ensures FirstPerson("僕たち") == ("", false)
    ensures Address("僕たち") == "僕たち"
  {
    FirstPersonByStem("僕たち");
    assert EndsWith("僕たち", "たち");
    assert Stem("僕たち") == "僕た";
    assert !IsFirstPersonWord("僕た");
  }

  /** ら is stripped before the lookup, so the listed おら is not recognised as itself. */
  lemma FirstPersonOra()
    ensures IsFirstPersonWord("おら") && FirstPerson("おら") == ("", false)
  {
    FirstPersonByStem("おら");
    assert EndsWith("おら", "ら");
    assert Stem("おら") == "お";
    assert !IsFirstPersonWord("お");
  }

  /** Likewise the listed うら. */
  lemma FirstPersonUra()
    ensures IsFirstPersonWord("うら") && FirstPerson("うら") == ("", false)
  {
    FirstPersonByStem("うら");
    assert EndsWith("うら", "ら");
    assert Stem("うら") == "う";
    assert !IsFirstPersonWord("う");
  }

  /** The listed おいら is read as the plural of the listed おい. */
  lemma FirstPersonOira()
    ensures IsFirstPersonWord("おいら") && FirstPerson("おいら") == ("きみたち", true)
  {
    FirstPersonByStem("おいら");
    assert EndsWith("おいら", "ら");
    assert Stem("おいら") == "おい";
    assert IsFirstPersonWord("おい");
  }

  /** A plural marker ends in 達, たち or ら: the last rune, and the one before ち. */
  predicate EndsLikeMarker(s: string)
  {
    |s| > 0 &&
    (s[|s| - 1] == '達' || s[|s| - 1] == 'ら' || (|s| > 1 && s[|s| - 2] == 'た' && s[|s| - 1] == 'ち'))
  }

  lemma PluralMarkerRunes(s: string)
    requires HasPluralSuffix(s)
    ensures EndsLikeMarker(s)
  {
    if EndsWith(s, "たち") {
      assert s[|s| - 2] == s[|s| - 2..][0];
      assert s[|s| - 1] == s[|s| - 2..][1];
    } else {
      assert s[|s| - 1] == s[|s| - 1..][0];
    }
  }

  /** The listed words that end like a plural marker. */
  lemma ListedEndingLikeMarker(w: string)
    requires IsFirstPersonWord(w) && EndsLikeMarker(w)
    ensures w == "俺ら" || w == "おいら" || w == "おら" || w == "うら"
  {
  }

  /** The only listed words read as plurals are おいら and 俺ら. */
  lemma {:induction false} ListedPlurals(w: string)
    requires IsFirstPersonWord(w)
    ensures FirstPerson(w).0 == "きみたち" <==> w == "おいら" || w == "俺ら"
  {
    if w == "俺ら" {
      FirstPersonPluralRa();
    } else if w == "おいら" {
      FirstPersonOira();
    } else if w == "おら" {
      FirstPersonOra();
    } else if w == "うら" {
      FirstPersonUra();
    } else {
      if HasPluralSuffix(w) {
        PluralMarkerRunes(w);
        ListedEndingLikeMarker(w);
        assert false;
      }
      assert Stem(w) == w;
      FirstPersonByStem(w);
    }
  }

  // ---------------------------------------------------------------------------
  // Specification of the statement generator
  // ---------------------------------------------------------------------------

  /** The noun 得意 ("good at"). */
  predicate IsGoodAt(t: Token)
  {
    t.surface == GoodAt && t.pos == Noun
  }

  predicate HasGoodAt(c: Chunk)
  {
    exists k :: 0 <= k < |c.tokens| && IsGoodAt(c.tokens[k])
  }

  /**
    The value of the `specialtyID` sentinel after scanning `chunks` in order:
    it starts at -1 and is set to the id of a chunk holding 得意 while it is
    still negative.
  */
  function AnchorScan(chunks: seq<Chunk>): int
  {
    if chunks == [] then -1
    else
      var sid := AnchorScan(chunks[..|chunks| - 1]);
      var c := chunks[|chunks| - 1];
      if sid < 0 && HasGoodAt(c) then c.id else sid
  }

  /** A chunk that ends the anchor search: it holds 得意 and its id is not the sentinel range. */
  predicate IsAnchor(c: Chunk)
  {
    HasGoodAt(c) && c.id >= 0
  }

  /** `chunks[i]` is the first anchor in input order. */
  predicate FirstAnchorAt(chunks: seq<Chunk>, i: int)
  {
    0 <= i < |chunks| && IsAnchor(chunks[i]) &&
    forall j :: 0 <= j < i ==> !IsAnchor(chunks[j])
  }

  /** The chunks whose head is `h`, in input order. */
  function DependentsOf(chunks: seq<Chunk>, h: int): seq<Chunk>
  {
    if chunks == [] then []
    else
      var c := chunks[|chunks| - 1];
      DependentsOf(chunks[..|chunks| - 1], h) + (if c.head == h then [c] else [])
  }

  /** The concatenated surfaces of a morpheme sequence. */
  function Surfaces(ts: seq<Token>): string
  {
    if ts == [] then "" else Surfaces(ts[..|ts| - 1]) + ts[|ts| - 1].surface
  }

  /** The role a dependent of the anchor fills. */
  datatype Role = Subject | Specialty

  /**
    The role announced by a chunk's final particle: は names the subject, が or
    も the specialty; a chunk of fewer than two morphemes, or one whose last
    morpheme is not a particle, fills none.
  */
  function RoleOf(c: Chunk): Option<Role>
  {
    var n := |c.tokens|;
    if n < 2 || c.tokens[n - 1].pos != Particle then None
    else if c.tokens[n - 1].surface == Topic then Some(Subject)
    else if c.tokens[n - 1].surface == "が" || c.tokens[n - 1].surface == "も" then Some(Specialty)
    else None
  }

  /** What a chunk contributes to its role: every surface but the final particle. */
  function Body(c: Chunk): string
  {
    if c.tokens == [] then "" else Surfaces(c.tokens[..|c.tokens| - 1])
  }

  datatype Roles = Roles(subject: string, specialty: string)
  {
    function Get(role: Role): string
    {
      match role
      case Subject => subject
      case Specialty => specialty
    }

    function Set(role: Role, value: string): Roles
    {
      match role
      case Subject => this.(subject := value)
      case Specialty => this.(specialty := value)
    }
  }

  /** One step of the role scan: a chunk that fills a role overwrites it. */
  function Apply(r: Roles, c: Chunk): Roles
  {
    match RoleOf(c)
    case None => r
    case Some(role) => r.Set(role, Body(c))
  }

  /** The subject and specialty after scanning `deps` in order, starting from empty strings. */
  function Scan(deps: seq<Chunk>): Roles
  {
    if deps == [] then Roles("", "") else Apply(Scan(deps[..|deps| - 1]), deps[|deps| - 1])
  }

  /** The roles filled by the dependents of chunk `h`. */
  function RolesOf(chunks: seq<Chunk>, h: int): Roles
  {
    Scan(DependentsOf(chunks, h))
  }

  /** The statement template. */
  function Compliment(subject: string, specialty: string): string
  {
    Opening + subject + Topic + specialty + Closing
  }

  /** The statement `Say` produces for a successful parse; "" when the pattern is absent. */
  function Generate(chunks: seq<Chunk>): string
  {
    if |chunks| == 0 then ""
    else
      var anchor := AnchorScan(chunks);
      if anchor < 0 then ""
      else if DependentsOf(chunks, anchor) == [] then ""
      else
        var roles := Scan(DependentsOf(chunks, anchor));
        if roles.specialty == "" then ""
        else
          Compliment(Address(roles.subject), roles.specialty)
  }

  // ---------------------------------------------------------------------------
  // Properties of the specification
  // ---------------------------------------------------------------------------

  /** The dependents of `h` are chunks of the input with head `h`, and there are some exactly when some chunk has head `h`. */
  lemma {:induction false} DependentsOfFilter(chunks: seq<Chunk>, h: int)
    ensures |DependentsOf(chunks, h)| <= |chunks|
    ensures forall d :: d in DependentsOf(chunks, h) ==> d in chunks && d.head == h
    ensures DependentsOf(chunks, h) == [] <==> forall j :: 0 <= j < |chunks| ==> chunks[j].head != h
    decreases |chunks|
  {
    if chunks != [] {
      var prefix := chunks[..|chunks| - 1];
      DependentsOfFilter(prefix, h);
      assert forall d :: d in prefix ==> d in chunks;
    }
  }

  lemma {:induction false} DependentsOfSnoc(chunks: seq<Chunk>, c: Chunk, h: int)
    ensures c.head == h ==> DependentsOf(chunks + [c], h) == DependentsOf(chunks, h) + [c]
    ensures c.head != h ==> DependentsOf(chunks + [c], h) == DependentsOf(chunks, h)
  {
    assert (chunks + [c])[..|chunks|] == chunks;
    if c.head != h {
      assert DependentsOf(chunks, h) + [] == DependentsOf(chunks, h);
    }
  }

  lemma {:induction false} ScanSnoc(deps: seq<Chunk>, c: Chunk)
    ensures Scan(deps + [c]) == Apply(Scan(deps), c)
  {
    assert (deps + [c])[..|deps|] == deps;
  }

  /**
    Appending a chunk that does not depend on `h`, has fewer than two
    morphemes, does not end in a particle, or ends in a particle other than
    は, が and も leaves the roles of `h` alone.
  */
  lemma {:induction false} IrrelevantChunk(chunks: seq<Chunk>, c: Chunk, h: int)
    requires c.head != h || |c.tokens| < 2 || c.tokens[|c.tokens| - 1].pos != Particle ||
      c.tokens[|c.tokens| - 1].surface !in {"は", "が", "も"}
    ensures RolesOf(chunks + [c], h) == RolesOf(chunks, h)
  {
    assert c.head == h ==> RoleOf(c) == None;
    DependentsOfSnoc(chunks, c, h);
    if c.head == h {
      ScanSnoc(DependentsOf(chunks, h), c);
    }
  }

  /** The roles of `h` after one more chunk, by the chunk's dependency and role. */
  lemma {:induction false} RolesOfSnoc(chunks: seq<Chunk>, c: Chunk, h: int)
    ensures RolesOf(chunks + [c], h) ==
      if c.head == h then Apply(RolesOf(chunks, h), c) else RolesOf(chunks, h)
  {
    DependentsOfSnoc(chunks, c, h);
    if c.head == h {
      ScanSnoc(DependentsOf(chunks, h), c);
    }
  }

  /** One scan step changes `role` exactly when the chunk fills it. */
  lemma ApplyGet(r: Roles, c: Chunk, role: Role)
    ensures Apply(r, c).Get(role) == if RoleOf(c) == Some(role) then Body(c) else r.Get(role)
  {
  }

  /** Last writer wins: the last dependent of `h` filling `role` decides its value. */
  lemma {:induction false} LastWriterWins(chunks: seq<Chunk>, h: int, role: Role, k: int)
    requires 0 <= k < |chunks| && chunks[k].head == h && RoleOf(chunks[k]) == Some(role)
    requires forall j :: k < j < |chunks| && chunks[j].head == h ==> RoleOf(chunks[j]) != Some(role)
    ensures RolesOf(chunks, h).Get(role) == Body(chunks[k])
    decreases |chunks|
  {
    var n := |chunks|;
    var prefix, last := chunks[..n - 1], chunks[n - 1];
    assert chunks == prefix + [last];
    RolesOfSnoc(prefix, last, h);
    if k < n - 1 {
      assert prefix[k] == chunks[k];
      LastWriterWins(prefix, h, role, k);
      if last.head == h {
        ApplyGet(RolesOf(prefix, h), last, role);
      }
    } else {
      ApplyGet(RolesOf(prefix, h), last, role);
    }
  }

  /** A role no dependent of `h` fills stays empty. */
  lemma {:induction false} UnfilledRoleEmpty(chunks: seq<Chunk>, h: int, role: Role)
    requires forall j :: 0 <= j < |chunks| && chunks[j].head == h ==> RoleOf(chunks[j]) != Some(role)
    ensures RolesOf(chunks, h).Get(role) == ""
    decreases |chunks|
  {
    if chunks != [] {
      var n := |chunks|;
      var prefix := chunks[..n - 1];
      assert chunks == prefix + [chunks[n - 1]];
      RolesOfSnoc(prefix, chunks[n - 1], h);
      UnfilledRoleEmpty(prefix, h, role);
    }
  }

  /** The sentinel is its start value or the id of some chunk holding 得意. */
  lemma {:induction false} AnchorScanRange(chunks: seq<Chunk>)
    ensures AnchorScan(chunks) == -1 ||
      exists j :: 0 <= j < |chunks| && HasGoodAt(chunks[j]) && chunks[j].id == AnchorScan(chunks)
    decreases |chunks|
  {
    if chunks != [] {
      var prefix := chunks[..|chunks| - 1];
      AnchorScanRange(prefix);
      if AnchorScan(chunks) != AnchorScan(prefix) {
        assert HasGoodAt(chunks[|chunks| - 1]);
      } else if AnchorScan(prefix) != -1 {
        var j :| 0 <= j < |prefix| && HasGoodAt(prefix[j]) && prefix[j].id == AnchorScan(prefix);
        assert chunks[j] == prefix[j];
      }
    }
  }

  /** No anchor in the input: the sentinel stays negative. */
  lemma {:induction false} AnchorScanNone(chunks: seq<Chunk>)
    requires forall j :: 0 <= j < |chunks| ==> !IsAnchor(chunks[j])
    ensures AnchorScan(chunks) < 0
    decreases |chunks|
  {
    if chunks != [] {
      AnchorScanNone(chunks[..|chunks| - 1]);
    }
  }

  /** The search settles on the first anchor and later ones are ignored. */
  lemma {:induction false} AnchorScanFinds(chunks: seq<Chunk>, i: int)
    requires FirstAnchorAt(chunks, i)
    ensures AnchorScan(chunks) == chunks[i].id
    decreases |chunks|
  {
    var prefix := chunks[..|chunks| - 1];
    if i == |chunks| - 1 {
      AnchorScanNone(prefix);
    } else {
      AnchorScanFinds(prefix, i);
    }
  }

  lemma {:induction false} FirstAnchorExists(chunks: seq<Chunk>, j: int)
    requires 0 <= j < |chunks| && IsAnchor(chunks[j])
    ensures exists i :: FirstAnchorAt(chunks, i)
    decreases j
  {
    if !FirstAnchorAt(chunks, j) {
      var j' :| 0 <= j' < j && IsAnchor(chunks[j']);
      FirstAnchorExists(chunks, j');
    }
  }

  /** The sentinel ends non-negative exactly when some chunk is an anchor. */
  lemma {:induction false} AnchorFoundIff(chunks: seq<Chunk>)
    ensures AnchorScan(chunks) >= 0 <==> exists j :: 0 <= j < |chunks| && IsAnchor(chunks[j])
  {
    if j :| 0 <= j < |chunks| && IsAnchor(chunks[j]) {
      FirstAnchorExists(chunks, j);
      var i :| FirstAnchorAt(chunks, i);
      AnchorScanFinds(chunks, i);
    } else {
      AnchorScanNone(chunks);
    }
  }

  /** When ids are non-negative, the anchor is simply the first chunk holding the noun 得意. */
  lemma {:induction false} FirstGoodAtIsAnchor(chunks: seq<Chunk>, i: int)
    requires forall j :: 0 <= j < |chunks| ==> chunks[j].id >= 0
    requires 0 <= i < |chunks| && HasGoodAt(chunks[i])
    requires forall j :: 0 <= j < i ==> !HasGoodAt(chunks[j])
    ensures AnchorScan(chunks) == chunks[i].id
  {
    assert FirstAnchorAt(chunks, i);
    AnchorScanFinds(chunks, i);
  }

  /** An empty parse result yields the empty statement. */
  lemma GenerateEmpty()
    ensures Generate([]) == ""
  {
  }

  /** Without an anchor the statement is empty, whatever else the input holds. */
  lemma {:induction false} GenerateWithoutAnchor(chunks: seq<Chunk>)
    requires forall j :: 0 <= j < |chunks| ==> !IsAnchor(chunks[j])
    ensures Generate(chunks) == ""
  {
    AnchorScanNone(chunks);
  }

  /** The statement for an input whose first anchor is `chunks[i]`. */
  lemma {:induction false} GenerateAt(chunks: seq<Chunk>, i: int)
    requires FirstAnchorAt(chunks, i)
    ensures var roles := RolesOf(chunks, chunks[i].id);
      Generate(chunks) ==
        if roles.specialty == "" then ""
        else Compliment(Address(roles.subject), roles.specialty)
  {
    AnchorScanFinds(chunks, i);
    var h := chunks[i].id;
    if DependentsOf(chunks, h) == [] {
      assert RolesOf(chunks, h) == Roles("", "");
    }
  }

  /** An anchor nothing depends on yields the empty statement. */
  lemma {:induction false} GenerateWithoutDependents(chunks: seq<Chunk>, i: int)
    requires FirstAnchorAt(chunks, i)
    requires forall j :: 0 <= j < |chunks| ==> chunks[j].head != chunks[i].id
    ensures Generate(chunks) == ""
  {
    AnchorScanFinds(chunks, i);
    DependentsOfFilter(chunks, chunks[i].id);
  }

  /** No dependent of the anchor ending in が or も: the statement is empty. */
  lemma {:induction false} GenerateWithoutSpecialty(chunks: seq<Chunk>, i: int)
    requires FirstAnchorAt(chunks, i)
    requires forall j :: 0 <= j < |chunks| && chunks[j].head == chunks[i].id ==>
      RoleOf(chunks[j]) != Some(Specialty)
    ensures Generate(chunks) == ""
  {
    GenerateAt(chunks, i);
    UnfilledRoleEmpty(chunks, chunks[i].id, Specialty);
  }

  /**
    The full statement: with `chunks[i]` the first anchor, `chunks[k]` its last
    dependent ending in が or も (with a non-empty body) and `chunks[s]` its last
    dependent ending in は, the answer is the template around the normalised
    body of `chunks[s]` and the body of `chunks[k]`.
  */
  lemma {:induction false} GenerateStatement(chunks: seq<Chunk>, i: int, s: int, k: int)
    requires FirstAnchorAt(chunks, i)
    requires 0 <= k < |chunks| && chunks[k].head == chunks[i].id
    requires RoleOf(chunks[k]) == Some(Specialty) && Body(chunks[k]) != ""
    requires forall j :: k < j < |chunks| && chunks[j].head == chunks[i].id ==>
      RoleOf(chunks[j]) != Some(Specialty)
    requires 0 <= s < |chunks| && chunks[s].head == chunks[i].id && RoleOf(chunks[s]) == Some(Subject)
    requires forall j :: s < j < |chunks| && chunks[j].head == chunks[i].id ==>
      RoleOf(chunks[j]) != Some(Subject)
    ensures Generate(chunks) == Compliment(Address(Body(chunks[s])), Body(chunks[k]))
  {
    GenerateAt(chunks, i);
    LastWriterWins(chunks, chunks[i].id, Specialty, k);
    LastWriterWins(chunks, chunks[i].id, Subject, s);
  }

  /** As above without any dependent ending in は: the subject is addressed as きみ. */
  lemma {:induction false} GenerateStatementNoSubject(chunks: seq<Chunk>, i: int, k: int)
    requires FirstAnchorAt(chunks, i)
    requires 0 <= k < |chunks| && chunks[k].head == chunks[i].id
    requires RoleOf(chunks[k]) == Some(Specialty) && Body(chunks[k]) != ""
    requires forall j :: k < j < |chunks| && chunks[j].head == chunks[i].id ==>
      RoleOf(chunks[j]) != Some(Specialty)
    requires forall j :: 0 <= j < |chunks| && chunks[j].head == chunks[i].id ==>
      RoleOf(chunks[j]) != Some(Subject)
    ensures Generate(chunks) == Compliment("きみ", Body(chunks[k]))
  {
    GenerateAt(chunks, i);
    LastWriterWins(chunks, chunks[i].id, Specialty, k);
    UnfilledRoleEmpty(chunks, chunks[i].id, Subject);
  }

  /**
    The parse of "僕は料理が得意です": 僕は and 料理が both depend on the chunk
    holding 得意.
  */
  predicate IsBokuRyouriTokui(chunks: seq<Chunk>)
  {
    chunks == [
      Chunk(0, 2, [Token("僕", Noun), Token(Topic, Particle)]),
      Chunk(1, 2, [Token("料理", Noun), Token("が", Particle)]),
      Chunk(2, -1, [Token(GoodAt, Noun), Token("です", "助動詞")])
    ]
  }

  /** In that parse the third chunk is the anchor, 僕 fills the subject and 料理 the specialty. */
  lemma {:induction false} BokuRyouriTokuiRoles(chunks: seq<Chunk>)
    requires IsBokuRyouriTokui(chunks)
    ensures FirstAnchorAt(chunks, 2)
    ensures chunks[0].head == chunks[2].id && RoleOf(chunks[0]) == Some(Subject) && Body(chunks[0]) == "僕"
    ensures chunks[1].head == chunks[2].id && RoleOf(chunks[1]) == Some(Specialty) && Body(chunks[1]) == "料理"
  {
    var boku, ryouri, tokui := chunks[0], chunks[1], chunks[2];
    assert IsGoodAt(tokui.tokens[0]);
    assert !IsGoodAt(boku.tokens[0]) && !IsGoodAt(boku.tokens[1]);
    assert !IsGoodAt(ryouri.tokens[0]) && !IsGoodAt(ryouri.tokens[1]);
    assert boku.tokens[..1] == [boku.tokens[0]];
    assert Surfaces([boku.tokens[0]]) == Surfaces([]) + "僕";
    assert ryouri.tokens[..1] == [ryouri.tokens[0]];
    assert Surfaces([ryouri.tokens[0]]) == Surfaces([]) + "料理";
  }

  /** "僕は料理が得意です" becomes "すごーい！きみは料理が得意なフレンズなんだね！". */
  lemma {:induction false} GenerateExample(chunks: seq<Chunk>)
    requires IsBokuRyouriTokui(chunks)
    ensures Generate(chunks) == "すごーい！きみは料理が得意なフレンズなんだね！"
  {
    BokuRyouriTokuiRoles(chunks);
    GenerateStatement(chunks, 2, 0, 1);
    AddressBoku();
    KimiRyouriStatement();
  }

  /** The subject 僕 is addressed as きみ. */
  lemma AddressBoku()
    ensures Address("僕") == "きみ"
  {
    FirstPersonSingular();
  }

  /** The template filled with きみ and 料理. */
  lemma KimiRyouriStatement()
    ensures Compliment("きみ", "料理") == "すごーい！きみは料理が得意なフレンズなんだね！"
  {
  }

  // ---------------------------------------------------------------------------
  // The generator as an imperative program
  // ---------------------------------------------------------------------------

  /** `chunkMap` buckets `chunks` by head: a key per head in use, each bucket the dependents in input order. */
  ghost predicate IndexedBy(chunkMap: map<int, seq<Chunk>>, chunks: seq<Chunk>)
  {
    (forall h :: h in chunkMap <==> DependentsOf(chunks, h) != []) &&
    (forall h :: h in chunkMap ==> chunkMap[h] == DependentsOf(chunks, h))
  }

  /** Appending a chunk to the bucket of its head keeps the index in step with the input. */
  lemma {:induction false} IndexAppend(chunkMap: map<int, seq<Chunk>>, chunks: seq<Chunk>, c: Chunk)
    requires IndexedBy(chunkMap, chunks)
    ensures IndexedBy(
      chunkMap[c.head := (if c.head in chunkMap then chunkMap[c.head] else []) + [c]],
      chunks + [c])
  {
    var m := chunkMap[c.head := (if c.head in chunkMap then chunkMap[c.head] else []) + [c]];
    forall h
      ensures (h in m <==> DependentsOf(chunks + [c], h) != []) &&
              (h in m ==> m[h] == DependentsOf(chunks + [c], h))
    {
      DependentsOfSnoc(chunks, c, h);
    }
  }

  lemma {:induction false} AnchorScanSnoc(chunks: seq<Chunk>, c: Chunk)
    ensures AnchorScan(chunks + [c]) ==
      if AnchorScan(chunks) < 0 && HasGoodAt(c) then c.id else AnchorScan(chunks)
  {
    assert (chunks + [c])[..|chunks|] == chunks;
  }

  /**
    One pass over the chunks that buckets them by head, in input order, and
    runs the sentinel search for the anchor.
  */
  method IndexChunks(chunks: seq<Chunk>) returns (chunkMap: map<int, seq<Chunk>>, specialtyID: int)
    ensures IndexedBy(chunkMap, chunks)
    ensures specialtyID == AnchorScan(chunks)
  {
    specialtyID := -1;
    chunkMap := map[];
    for i := 0 to |chunks|
      invariant IndexedBy(chunkMap, chunks[..i])
      invariant specialtyID == AnchorScan(chunks[..i])
    {
      var chunk := chunks[i];
      assert chunks[..i + 1] == chunks[..i] + [chunk];
      IndexAppend(chunkMap, chunks[..i], chunk);
      AnchorScanSnoc(chunks[..i], chunk);

      var bucket := if chunk.head in chunkMap then chunkMap[chunk.head] else [];
      chunkMap := chunkMap[chunk.head := bucket + [chunk]];

      if specialtyID < 0 {
        var k := 0;
        while k < |chunk.tokens|
          invariant 0 <= k <= |chunk.tokens|
          invariant specialtyID < 0
          invariant forall j :: 0 <= j < k ==> !IsGoodAt(chunk.tokens[j])
        {
          if chunk.tokens[k].surface == GoodAt && chunk.tokens[k].pos == Noun {
            specialtyID := chunk.id;
            break;
          }
          k := k + 1;
        }
      }
    }
    assert chunks[..|chunks|] == chunks;
  }

  /** The role scan over the anchor's dependents, rebuilding each role from the morphemes. */
  method ExtractRoles(deps: seq<Chunk>) returns (subject: string, specialty: string)
    ensures Roles(subject, specialty) == Scan(deps)
  {
    subject, specialty := "", "";
    for d := 0 to |deps|
      invariant Roles(subject, specialty) == Scan(deps[..d])
    {
      var dep := deps[d];
      assert deps[..d + 1] == deps[..d] + [dep];
      ScanSnoc(deps[..d], dep);
      var tlen := |dep.tokens|;
      if tlen < 2 {
        continue;
      }
      var lastWord := dep.tokens[tlen - 1];
      if lastWord.pos != Particle {
        continue;
      }
      if lastWord.surface == Topic {
        subject := "";
        var i := 0;
        while i < tlen - 1
          invariant 0 <= i <= tlen - 1
          invariant subject == Surfaces(dep.tokens[..i])
        {
          assert dep.tokens[..i + 1][..i] == dep.tokens[..i];
          subject := subject + dep.tokens[i].surface;
          i := i + 1;
        }
      } else if lastWord.surface == "が" || lastWord.surface == "も" {
        specialty := "";
        var i := 0;
        while i < tlen - 1
          invariant 0 <= i <= tlen - 1
          invariant specialty == Surfaces(dep.tokens[..i])
        {
          assert dep.tokens[..i + 1][..i] == dep.tokens[..i];
          specialty := specialty + dep.tokens[i].surface;
          i := i + 1;
        }
      }
    }
    assert deps[..|deps|] == deps;
  }

  /**
    The caller-facing operation: a parse failure is passed back wrapped in
    context; otherwise the answer is the generated statement, "" for no match.
  */
  method Say(res: ParseOutcome) returns (r: Result<string>)
    ensures res.ParseFailed? ==> r == Failure(ParseErrorContext + res.cause)
    ensures res.Parsed? ==> r == Success(Generate(res.chunks))
  {
    if res.ParseFailed? {
      return Failure(ParseErrorContext + res.cause);
    }
    var chunks := res.chunks;
    if |chunks| == 0 {
      return Success("");
    }

    var chunkMap, specialtyID := IndexChunks(chunks);
    if specialtyID < 0 {
      return Success("");
    }

    if specialtyID !in chunkMap {
      return Success("");
    }
    var deps := chunkMap[specialtyID];

    var subject, specialty := ExtractRoles(deps);
    if specialty == "" {
      return Success("");
    }

    var (sub, ok) := FirstPerson(subject);
    if ok {
      subject := sub;
    }

    return Success(Compliment(subject, specialty));
  }
}
