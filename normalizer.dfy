/**
 * The validation and repair step between the extraction service's reply and
 * the store: fence stripping, parsing (a parameter: the JSON parser is not
 * part of this model), entry filtering, month normalisation over a closed
 * vocabulary and the rejection of an import that carries no entries, each
 * failure kept distinct.
 */
module Normalizer {
  import opened Common
  import opened JsText
  import opened Catalog

  /** One element of the reply's `data` array; a field is absent (`None`) or a number. */
  datatype Entry = Entry(taskId: Option<int>, quantity: Option<int>)

  /** The parsed reply; `data` is `None` when the field is absent or not an array. */
  datatype Response = Response(serverName: Option<string>, month: Option<string>, year: Option<int>, data: Option<seq<Entry>>)

  /** What the extraction call produced: the reply text, or the message of the error it raised. */
  datatype Reply = Reply(text: string) | ServiceFailed(message: string)

  datatype ImportFailure =
    | FormatError                             // the cleaned reply text did not parse
    | UnrecognizedMonth(raw: Option<string>)  // the month is outside the vocabulary; carries the month as received
    | NoEntries                               // no entry survived the filter
    | ServiceError(message: string)           // the extraction call itself failed

  /** A validated record: a month token and a non-empty map of task id to positive quantity. */
  datatype Extracted = Extracted(serverName: Option<string>, year: Option<int>, month: string, entries: map<int, int>)

  // ---------------------------------------------------------------- fences

  /** `text.replace(/```json|```/g, '')`: scanning left to right, "```json" is tried before "```". */
  function RemoveFences(s: string): string {
    if s == [] then []
    else if |s| >= 7 && s[..7] == "```json" then RemoveFences(s[7..])
    else if |s| >= 3 && s[..3] == "```" then RemoveFences(s[3..])
    else [s[0]] + RemoveFences(s[1..])
  }

  function StripFences(s: string): string {
    Trim(RemoveFences(s))
  }

  /** Text without a backtick passes through the fence removal unchanged. */
  lemma {:induction false} RemoveFencesKeeps(s: string, rest: string)
    requires '`' !in s
    ensures RemoveFences(s + rest) == s + RemoveFences(rest)
  {
    if s != [] {
      assert (s + rest)[0] == s[0];
      assert (s + rest)[1..] == s[1..] + rest;
      RemoveFencesKeeps(s[1..], rest);
      assert [s[0]] + s[1..] == s;
    } else {
      assert s + rest == rest;
    }
  }

  /** A body wrapped in a json code fence comes out as the trimmed body. */
  lemma StripFencedBody(body: string)
    requires '`' !in body
    ensures StripFences("```json" + body + "```") == Trim(body)
  {
    var t := "```json" + body + "```";
    assert t[..7] == "```json" && t[7..] == body + "```";
    RemoveFencesKeeps(body, "```");
    var tail: string := "```";
    assert tail[..3] == "```" && tail[3..] == [];
    assert body + [] == body;
  }

  /** A reply without a backtick is only trimmed. */
  lemma StripUnfenced(text: string)
    requires '`' !in text
    ensures StripFences(text) == Trim(text)
  {
    RemoveFencesKeeps(text, []);
    assert text + [] == text;
  }

  // ---------------------------------------------------------------- entries

  /** `item.taskId && item.quantity > 0`: a task id that is present and not 0, and a quantity that is present and positive. */
  predicate Kept(e: Entry) {
    e.taskId.Some? && e.taskId.value != 0 && e.quantity.Some? && e.quantity.value > 0
  }

  /** The id-to-quantity map the entry loop builds: kept entries in order, a later one overwriting an earlier one with the same id. */
  function Formatted(items: seq<Entry>): (m: map<int, int>)
    ensures forall id :: id in m ==> id != 0 && m[id] > 0
  {
    if items == [] then map[]
    else
      var m := Formatted(items[..|items| - 1]);
      var e := items[|items| - 1];
      if Kept(e) then m[e.taskId.value := e.quantity.value] else m
  }

  /** Entry `k` is the last kept entry for `id`. */
  predicate LastKeptAt(items: seq<Entry>, k: int, id: int) {
    && 0 <= k < |items| && Kept(items[k]) && items[k].taskId.value == id
    && forall j :: k < j < |items| ==> !(Kept(items[j]) && items[j].taskId.value == id)
  }

  /** An id is imported exactly when some kept entry carries it. */
  lemma {:induction false} FormattedKeys(items: seq<Entry>, id: int)
    ensures id in Formatted(items) <==> exists k :: 0 <= k < |items| && Kept(items[k]) && items[k].taskId.value == id
  {
    if items != [] {
      var init := items[..|items| - 1];
      FormattedKeys(init, id);
      if exists k :: 0 <= k < |init| && Kept(init[k]) && init[k].taskId.value == id {
        var k :| 0 <= k < |init| && Kept(init[k]) && init[k].taskId.value == id;
        assert items[k] == init[k];
      }
      if exists k :: 0 <= k < |items| && Kept(items[k]) && items[k].taskId.value == id {
        var k :| 0 <= k < |items| && Kept(items[k]) && items[k].taskId.value == id;
        if k < |init| {
          assert init[k] == items[k];
        }
      }
    }
  }

  /** The quantity imported for an id is that of the last kept entry carrying it. */
  lemma {:induction false} FormattedLastWins(items: seq<Entry>, k: int, id: int)
    requires LastKeptAt(items, k, id)
    ensures id in Formatted(items) && Formatted(items)[id] == items[k].quantity.value
  {
    var init := items[..|items| - 1];
    if k < |items| - 1 {
      assert LastKeptAt(init, k, id);
      FormattedLastWins(init, k, id);
    }
  }

  /** The entry loop: `formattedData[item.taskId] = item.quantity` for each kept item, in order. */
  method FormatEntries(items: seq<Entry>) returns (m: map<int, int>)
    ensures m == Formatted(items)
  {
    m := map[];
    var i := 0;
    while i < |items|
      invariant 0 <= i <= |items|
      invariant m == Formatted(items[..i])
    {
      var item := items[i];
      assert items[..i + 1][..i] == items[..i];
      if Kept(item) {
        m := m[item.taskId.value := item.quantity.value];
      }
      i := i + 1;
    }
    assert items[..|items|] == items;
  }

  // ---------------------------------------------------------------- month

  /** The full Portuguese month names the import also accepts, lower case. */
  const FULL_MONTH_NAMES: map<string, string> := map[
    "janeiro" := "jan", "fevereiro" := "fev", "março" := "mar", "abril" := "abr", "maio" := "mai", "junho" := "jun",
    "julho" := "jul", "agosto" := "ago", "setembro" := "set", "outubro" := "out", "novembro" := "nov", "dezembro" := "dez"
  ]

  /**
   * The month token of a reply: lower-cased and trimmed; a token is taken as it
   * is, a full name is mapped to its token, anything else (an absent month
   * included) is unrecognised.
   */
  function NormalizeMonth(raw: Option<string>): (r: Option<string>)
    ensures r.Some? ==> r.value in MONTHS
  {
    var s := if raw.Some? then Trim(ToLower(raw.value)) else "";
    if s in MONTHS then Some(s)
    else if s in FULL_MONTH_NAMES then Some(FULL_MONTH_NAMES[s])
    else None
  }

  /** The calendar's month names, in order, as a reference list independent of the lookup table. */
  const CALENDAR_NAMES: seq<string> := [
    "janeiro", "fevereiro", "março", "abril", "maio", "junho",
    "julho", "agosto", "setembro", "outubro", "novembro", "dezembro"
  ]

  /** Non-empty text made only of lower-case letters (ç included). */
  predicate PlainLower(s: string) {
    s != [] && forall i :: 0 <= i < |s| ==> ('a' <= s[i] <= 'z' || s[i] == 'ç')
  }

  /** Such text is left as it is by lower-casing and by trimming. */
  lemma PlainLowerIsNormal(s: string)
    requires PlainLower(s)
    ensures ToLower(s) == s && Trim(s) == s
  {
    PlainLowerIsLower(s);
    PlainLetter(s[0]);
    PlainLetter(s[|s| - 1]);
    assert TrimStart(s) == s;
  }

  lemma PlainLowerIsLower(s: string)
    requires PlainLower(s)
    ensures ToLower(s) == s
  {
    LowerAt(s);
    forall i | 0 <= i < |s| ensures ToLower(s)[i] == s[i] {
      PlainLetter(s[i]);
    }
  }

  lemma PlainLetter(c: char)
    requires 'a' <= c <= 'z' || c == 'ç'
    ensures !IsSpace(c) && LowerChar(c) == c
  {
  }

  lemma MonthToken(i: int)
    requires 0 <= i < 12
    ensures PlainLower(MONTHS[i])
  {
  }

  /** Each calendar name is plain lower case, is not itself a token, and the table maps it to the token of its position. */
  lemma CalendarName(i: int)
    requires 0 <= i < 12
    ensures PlainLower(CALENDAR_NAMES[i]) && CALENDAR_NAMES[i] !in MONTHS
    ensures CALENDAR_NAMES[i] in FULL_MONTH_NAMES && FULL_MONTH_NAMES[CALENDAR_NAMES[i]] == MONTHS[i]
  {
    assert |CALENDAR_NAMES[i]| >= 4;
    assert forall j :: 0 <= j < 12 ==> |MONTHS[j]| == 3;
  }

  /** The table has no other key. */
  lemma FullNameKeys()
    ensures forall s :: s in FULL_MONTH_NAMES ==> s in CALENDAR_NAMES
  {
  }

  /** Both spellings of every month are accepted and give that month's token. */
  lemma NormalizeMonthAccepts(i: int)
    requires 0 <= i < 12
    ensures NormalizeMonth(Some(MONTHS[i])) == Some(MONTHS[i])
    ensures NormalizeMonth(Some(CALENDAR_NAMES[i])) == Some(MONTHS[i])
  {
    MonthToken(i);
    PlainLowerIsNormal(MONTHS[i]);
    CalendarName(i);
    PlainLowerIsNormal(CALENDAR_NAMES[i]);
  }

  /** And nothing else is: an accepted month reads, lower-cased and trimmed, as its token or its full name. */
  lemma NormalizeMonthOnlyAccepts(raw: string, i: int)
    requires 0 <= i < 12
    requires NormalizeMonth(Some(raw)) == Some(MONTHS[i])
    ensures Trim(ToLower(raw)) == MONTHS[i] || Trim(ToLower(raw)) == CALENDAR_NAMES[i]
  {
    var s := Trim(ToLower(raw));
    if s !in MONTHS {
      assert s in FULL_MONTH_NAMES && FULL_MONTH_NAMES[s] == MONTHS[i];
      FullNameKeys();
      var j :| 0 <= j < 12 && CALENDAR_NAMES[j] == s;
      CalendarName(j);
      MonthsShape();
    }
  }

  /** A token written as it is stands for itself. */
  lemma PlainToken(m: string)
    requires PlainLower(m) && m in MONTHS
    ensures NormalizeMonth(Some(m)) == Some(m)
  {
    PlainLowerIsNormal(m);
  }

  /** Text that lower-cases and trims to neither a token nor a calendar name is unrecognised. */
  lemma NormalizeMonthRejects(raw: string)
    requires Trim(ToLower(raw)) !in MONTHS && Trim(ToLower(raw)) !in CALENDAR_NAMES
    ensures NormalizeMonth(Some(raw)) == None
  {
    FullNameKeys();
  }

  /** The month may arrive with surrounding whitespace. */
  lemma {:induction false} NormalizeMonthIgnoresPadding(pre: string, s: string, post: string)
    requires forall i :: 0 <= i < |pre| ==> IsSpace(pre[i])
    requires forall i :: 0 <= i < |post| ==> IsSpace(post[i])
    ensures NormalizeMonth(Some(pre + s + post)) == NormalizeMonth(Some(s))
  {
    LowerOfSpaces(pre);
    LowerOfSpaces(post);
    LowerAt(pre + s + post);
    LowerAt(pre);
    LowerAt(s);
    LowerAt(post);
    assert ToLower(pre + s + post) == ToLower(pre) + ToLower(s) + ToLower(post);
    TrimPadded(pre, ToLower(s), post);
  }

  /** The month may arrive in any case. */
  lemma NormalizeMonthIgnoresCase(s: string)
    ensures NormalizeMonth(Some(ToLower(s))) == NormalizeMonth(Some(s))
  {
    ToLowerIdempotent(s);
  }

  lemma LowerOfSpaces(s: string)
    requires forall i :: 0 <= i < |s| ==> IsSpace(s[i])
    ensures ToLower(s) == s
  {
    LowerAt(s);
  }

  /** A spelling that lower-cases and trims to a full name gives that name's token. */
  lemma ViaFullName(raw: string, name: string, token: string)
    requires Trim(ToLower(raw)) == name
    requires name !in MONTHS && name in FULL_MONTH_NAMES && FULL_MONTH_NAMES[name] == token
    ensures NormalizeMonth(Some(raw)) == Some(token)
  {
  }

  lemma FullNameExample()
    ensures NormalizeMonth(Some("Fevereiro")) == Some("fev")
  {
    FevereiroReadsAsName();
    FevereiroIsAName();
    ViaFullName("Fevereiro", "fevereiro", "fev");
  }

  lemma FevereiroReadsAsName()
    ensures Trim(ToLower("Fevereiro")) == "fevereiro"
  {
    LowerFevereiro();
    PlainLowerIsNormal("fevereiro");
  }

  lemma LowerFevereiro()
    ensures ToLower("Fevereiro") == "fevereiro" && PlainLower("fevereiro")
  {
    FevereiroSpelling();
    LowerCapitalized('F', "evereiro");
  }

  lemma FevereiroSpelling()
    ensures ['F'] + "evereiro" == "Fevereiro" && ['f'] + "evereiro" == "fevereiro"
  {
  }

  /** A capital letter followed by plain lower-case text: only the capital changes. */
  lemma LowerCapitalized(c: char, rest: string)
    requires 'A' <= c <= 'Z' && PlainLower(rest)
    ensures ToLower([c] + rest) == [(c as int + 32) as char] + rest
    ensures PlainLower([(c as int + 32) as char] + rest)
  {
    var s := [c] + rest;
    assert s[1..] == rest;
    PlainLowerIsLower(rest);
  }

  lemma FevereiroIsAName()
    ensures "fevereiro" !in MONTHS && "fevereiro" in FULL_MONTH_NAMES && FULL_MONTH_NAMES["fevereiro"] == "fev"
  {
  }

  lemma PaddedCapitalsExample()
    ensures NormalizeMonth(Some(" MARÇO ")) == Some("mar")
  {
    PaddedMarco();
    MarcoReadsAsName();
    MarcoIsAName();
    ViaFullName("MARÇO", "março", "mar");
  }

  lemma PaddedMarco()
    ensures NormalizeMonth(Some(" MARÇO ")) == NormalizeMonth(Some("MARÇO"))
  {
    assert " MARÇO " == " " + "MARÇO" + " ";
    NormalizeMonthIgnoresPadding(" ", "MARÇO", " ");
  }

  lemma MarcoReadsAsName()
    ensures Trim(ToLower("MARÇO")) == "março"
  {
    assert ToLower("MARÇO") == "março";
    assert PlainLower("março");
    PlainLowerIsNormal("março");
  }

  lemma MarcoIsAName()
    ensures "março" !in MONTHS && "março" in FULL_MONTH_NAMES && FULL_MONTH_NAMES["março"] == "mar"
  {
  }

  /** A number is never a month: text made of digits is unrecognised. */
  lemma NumberIsNoMonth(s: string)
    requires s != [] && forall i :: 0 <= i < |s| ==> IsDigit(s[i])
    ensures NormalizeMonth(Some(s)) == None
  {
    DigitTextIsNormal(s);
    MonthsStartWithLetters();
    NormalizeMonthRejects(s);
  }

  /** Every token and every calendar name starts with a letter. */
  lemma MonthsStartWithLetters()
    ensures forall m :: m in MONTHS ==> m != [] && !IsDigit(m[0])
    ensures forall m :: m in CALENDAR_NAMES ==> m != [] && !IsDigit(m[0])
  {
    forall i | 0 <= i < 12
      ensures PlainLower(MONTHS[i]) && PlainLower(CALENDAR_NAMES[i])
    {
      MonthToken(i);
      CalendarName(i);
    }
  }

  /** Text made of digits is left as it is by lower-casing and by trimming. */
  lemma DigitTextIsNormal(s: string)
    requires s != [] && forall i :: 0 <= i < |s| ==> IsDigit(s[i])
    ensures ToLower(s) == s && Trim(s) == s
  {
    LowerAt(s);
    DigitIsNotSpace(s[0]);
    DigitIsNotSpace(s[|s| - 1]);
    assert TrimStart(s) == s;
  }

  lemma UnknownWordIsNoMonth()
    ensures NormalizeMonth(Some("smarch")) == None
  {
    assert PlainLower("smarch");
    PlainLowerIsNormal("smarch");
    NormalizeMonthRejects("smarch");
  }

  // ---------------------------------------------------------------- normalise

  /**
   * The checks in the order the import runs them: entries are filtered, the
   * month is normalised (an unrecognised month fails first), then an import
   * without entries fails.
   */
  function Normalize(r: Response): (res: Result<Extracted, ImportFailure>)
    ensures res.Success? ==> res.value.month in MONTHS && |res.value.entries| > 0
    ensures res.Success? ==> forall id :: id in res.value.entries ==> id != 0 && res.value.entries[id] > 0
    ensures res.Failure? ==> res.error == UnrecognizedMonth(r.month) || res.error == NoEntries
  {
    var entries := if r.data.Some? then Formatted(r.data.value) else map[];
    var month := NormalizeMonth(r.month);
    if month.None? then Failure(UnrecognizedMonth(r.month))
    else if |entries| == 0 then Failure(NoEntries)
    else Success(Extracted(r.serverName, r.year, month.value, entries))
  }

  /** A reply is accepted exactly when its month is recognised and some entry is kept; the month is checked first. */
  lemma NormalizeOutcome(r: Response)
    ensures Normalize(r).Failure? && Normalize(r).error.UnrecognizedMonth? <==> NormalizeMonth(r.month).None?
    ensures Normalize(r).Success? <==>
              NormalizeMonth(r.month).Some? && r.data.Some? &&
              exists k :: 0 <= k < |r.data.value| && Kept(r.data.value[k])
  {
    if r.data.Some? {
      var items := r.data.value;
      if exists k :: 0 <= k < |items| && Kept(items[k]) {
        var k :| 0 <= k < |items| && Kept(items[k]);
        FormattedKeys(items, items[k].taskId.value);
      } else if |Formatted(items)| != 0 {
        var id :| id in Formatted(items);
        FormattedKeys(items, id);
      }
    }
  }

  /** The text the reply is parsed from, decoded; failures carry their kind. */
  function Decode(reply: Reply, parse: string -> Option<Response>): (res: Result<Extracted, ImportFailure>)
    ensures reply.ServiceFailed? ==> res == Failure(ServiceError(reply.message))
    ensures reply.Reply? && parse(StripFences(reply.text)).None? ==> res == Failure(FormatError)
    ensures res.Success? ==> res.value.month in MONTHS && |res.value.entries| > 0
    ensures res.Success? ==> forall id :: id in res.value.entries ==> res.value.entries[id] > 0
  {
    match reply
    case ServiceFailed(message) => Failure(ServiceError(message))
    case Reply(text) =>
      match parse(StripFences(text))
      case None => Failure(FormatError)
      case Some(r) => Normalize(r)
  }

  /**
   * The import's reading steps in the order the handler runs them: strip the
   * fences and parse, collect the entries, normalise the month, reject an
   * empty import.
   */
  method Extract(reply: Reply, parse: string -> Option<Response>) returns (res: Result<Extracted, ImportFailure>)
    ensures res == Decode(reply, parse)
  {
    if reply.ServiceFailed? {
      return Failure(ServiceError(reply.message));
    }
    var parsed := parse(StripFences(reply.text));
    if parsed.None? {
      return Failure(FormatError);
    }
    var r := parsed.value;
    DecodeParsed(reply, parse, r);
    var entries: map<int, int> := map[];
    if r.data.Some? {
      entries := FormatEntries(r.data.value);
    }
    var month := NormalizeMonth(r.month);
    if month.None? {
      NormalizeRejectsMonth(r);
      return Failure(UnrecognizedMonth(r.month));
    }
    if |entries| == 0 {
      NormalizeRejectsEmpty(r);
      return Failure(NoEntries);
    }
    NormalizeAccepts(r, month.value, entries);
    return Success(Extracted(r.serverName, r.year, month.value, entries));
  }

  /** The text the import shows for each failure. */
  function Message(e: ImportFailure): string {
    match e
    case FormatError =>
      "O sistema não conseguiu processar a resposta do documento. Por favor, tente novamente ou use um arquivo mais legível."
    case UnrecognizedMonth(raw) =>
      "Mês não identificado no documento: " + (if raw.Some? && raw.value != "" then raw.value else "Não encontrado")
        + ". Verifique se o período está visível no arquivo."
    case NoEntries =>
      "Não conseguimos extrair dados de produtividade deste documento. Certifique-se de que o arquivo contém a lista de atividades e suas respectivas quantidades."
    case ServiceError(message) =>
      if message != "" then message else "Falha ao processar o documento. Verifique o formato e tente novamente."
  }

  /** The month error names the raw month, or says it was not found; a failed call shows its own message, or a fallback. */
  lemma MessageContents(raw: string, message: string)
    ensures raw != "" ==> Message(UnrecognizedMonth(Some(raw)))
                            == "Mês não identificado no documento: " + raw + ". Verifique se o período está visível no arquivo."
    ensures Message(UnrecognizedMonth(None)) == Message(UnrecognizedMonth(Some("")))
    ensures Message(UnrecognizedMonth(None)) == Message(UnrecognizedMonth(Some("Não encontrado")))
    ensures message != "" ==> Message(ServiceError(message)) == message
    ensures Message(ServiceError("")) == "Falha ao processar o documento. Verifique o formato e tente novamente."
  {
  }

  /** A reply that parses is decoded by the normaliser. */
  lemma DecodeParsed(reply: Reply, parse: string -> Option<Response>, r: Response)
    requires reply.Reply? && parse(StripFences(reply.text)) == Some(r)
    ensures Decode(reply, parse) == Normalize(r)
  {
  }

  /** An unrecognised month is reported before anything else is looked at. */
  lemma NormalizeRejectsMonth(r: Response)
    requires NormalizeMonth(r.month).None?
    ensures Normalize(r) == Failure(UnrecognizedMonth(r.month))
  {
  }

  /** A recognised month with no kept entry is an empty import. */
  lemma NormalizeRejectsEmpty(r: Response)
    requires NormalizeMonth(r.month).Some?
    requires r.data.None? || |Formatted(r.data.value)| == 0
    ensures Normalize(r) == Failure(NoEntries)
  {
  }

  /** A reply with a recognised month and a non-empty entry map is accepted as it stands. */
  lemma NormalizeAccepts(r: Response, token: string, entries: map<int, int>)
    requires NormalizeMonth(r.month) == Some(token)
    requires r.data.Some? && Formatted(r.data.value) == entries && |entries| > 0
    ensures Normalize(r) == Success(Extracted(r.serverName, r.year, token, entries))
  {
  }

  /** A reply naming February in full, with one zero-quantity entry: the month becomes `fev` and the zero entry is dropped. */
  lemma NormalizeExample()
    ensures Normalize(Response(Some("J. SILVA"), Some("Fevereiro"), Some(2026),
                               Some([Entry(Some(1), Some(5)), Entry(Some(99), Some(0))])))
         == Success(Extracted(Some("J. SILVA"), Some(2026), "fev", map[1 := 5]))
  {
    FullNameExample();
    ExampleEntries();
    var items := [Entry(Some(1), Some(5)), Entry(Some(99), Some(0))];
    NormalizeAccepts(Response(Some("J. SILVA"), Some("Fevereiro"), Some(2026), Some(items)), "fev", map[1 := 5]);
  }

  lemma ExampleEntries()
    ensures Formatted([Entry(Some(1), Some(5)), Entry(Some(99), Some(0))]) == map[1 := 5]
  {
    var items := [Entry(Some(1), Some(5)), Entry(Some(99), Some(0))];
    assert items[..1] == [Entry(Some(1), Some(5))];
    assert items[..1][..0] == [];
  }

  /** A reply without an entries list is rejected as empty once its month is read. */
  lemma MissingEntriesExample()
    ensures Normalize(Response(None, Some("fev"), Some(2026), None)) == Failure(NoEntries)
  {
    assert PlainLower("fev");
    PlainToken("fev");
  }

  /** An unknown month is reported, with the month as received, before anything else. */
  lemma UnknownMonthExample()
    ensures Normalize(Response(None, Some("13"), Some(2026), Some([Entry(Some(1), Some(5))]))) == Failure(UnrecognizedMonth(Some("13")))
    ensures Normalize(Response(None, Some("smarch"), None, Some([]))) == Failure(UnrecognizedMonth(Some("smarch")))
  {
    NumberIsNoMonth("13");
    UnknownWordIsNoMonth();
  }

  /** A reply whose only entry has quantity 0 carries no data. */
  lemma ZeroQuantityExample()
    ensures Normalize(Response(None, Some("jan"), None, Some([Entry(Some(4), Some(0))]))) == Failure(NoEntries)
  {
    assert PlainLower("jan");
    PlainToken("jan");
    var zero := [Entry(Some(4), Some(0))];
    assert zero[..0] == [];
  }
}
