/**
 * The text the ingestion step builds from one legal document
 * (`DocumentProcessor._create_header` and `_flatten_articles` in
 * json_to_rag_chunks.py): the per-document header, the status and
 * effective content of every article, and the article blocks joined into
 * one body string.
 */
module Articles {
  import opened Wrappers
  import opened Json
  import opened Errors
  import Text

  const ActiveLabel := "سارية"
  const CanceledLabel := "ملغاة"
  /** Shown when a date is missing or falsy. */
  const Unspecified := "غير محدد"
  const WorkingDateLabel := "تاريخ العمل: "
  const CancelingDateLabel := " | تاريخ الإلغاء: "

  /** `is_canceled == 1 or is_canceled == "1"`; in Python `True == 1`, so `True` qualifies. */
  predicate IsCanceledFlag(v: Value) {
    v == Number(1) || v == Bool(true) || v == String("1")
  }

  /** The flag defaults to `0` when the article has no `is_canceled` key. */
  predicate IsCanceled(art: Fields) {
    IsCanceledFlag(GetOr(art, "is_canceled", Number(0)))
  }

  function Status(art: Fields): (r: string)
    ensures r == CanceledLabel <==> IsCanceled(art)
    ensures r == ActiveLabel <==> !IsCanceled(art)
  {
    if IsCanceled(art) then CanceledLabel else ActiveLabel
  }

  /** `art.get(key) or "غير محدد"`, rendered by an f-string. */
  function DateOrUnspecified(art: Fields, key: string): (r: string)
    ensures Get(art, key).Some? && Truthy(Get(art, key).value) ==> r == Display(Get(art, key).value)
    ensures Get(art, key).None? || !Truthy(Get(art, key).value) ==> r == Unspecified
  {
    var v := Get(art, key);
    if v.Some? && Truthy(v.value) then Display(v.value) else Unspecified
  }

  /**
   * The date line of an article block: always the working date, and the
   * canceling date only for a canceled article.
   */
  function DateInfo(art: Fields): (r: string)
    ensures var w := WorkingDateLabel + DateOrUnspecified(art, "working_date");
      && |w| <= |r| && r[..|w|] == w
      && (IsCanceled(art) <==> |r| > |w|)
      && (IsCanceled(art) ==> r[|w|..] == CancelingDateLabel + DateOrUnspecified(art, "canceling_date"))
  {
    var w := WorkingDateLabel + DateOrUnspecified(art, "working_date");
    var tail := if IsCanceled(art) then CancelingDateLabel + DateOrUnspecified(art, "canceling_date") else "";
    assert IsCanceled(art) <==> |tail| > 0;
    assert (w + tail)[..|w|] == w && (w + tail)[|w|..] == tail;
    w + tail
  }

  /**
   * A canceled article whose `original_content` is present and truthy
   * shows that value instead of `article_content`.
   */
  predicate ShowsOriginal(art: Fields) {
    var original := Get(art, "original_content");
    IsCanceled(art) && original.Some? && Truthy(original.value)
  }

  /**
   * The content value picked before the `None` check: `original_content`
   * when the article shows it, otherwise `article_content` (default `""`).
   */
  function ChosenContent(art: Fields): Value {
    if ShowsOriginal(art) then Get(art, "original_content").value
    else GetOr(art, "article_content", String(""))
  }

  /**
   * The effective content of an article: the chosen value with `None`
   * read as `""`, whitespace-stripped. A chosen value that is neither
   * `None` nor a string has no `.strip()`.
   */
  function EffectiveContent(art: Fields): (r: Result<string, PyError>)
    ensures r.Ok? <==> ChosenContent(art).Null? || ChosenContent(art).String?
    ensures r.Ok? ==> Text.IsStripped(r.value)
    ensures ChosenContent(art).Null? ==> r == Ok("")
    ensures ChosenContent(art).String? ==> r == Ok(Text.Strip(ChosenContent(art).s))
    ensures r.Err? ==> r.error == AttributeError
  {
    match ChosenContent(art)
    case Null => Ok("")
    case String(s) => Ok(Text.Strip(s))
    case _ => Err(AttributeError)
  }

  /**
   * Which text field wins, stated over the stored values: a canceled
   * article with a truthy string `original_content` shows that text;
   * any other article (active, or canceled with the original missing or
   * falsy: `None`, `""`, `0`, `False`, `[]`, `{}`) shows `article_content`,
   * with a missing key read as `""` and `None` read as `""`.
   */
  lemma SelectionRule(art: Fields)
    ensures ShowsOriginal(art) && Get(art, "original_content").value.String?
      ==> EffectiveContent(art) == Ok(Text.Strip(Get(art, "original_content").value.s))
    ensures !ShowsOriginal(art) && GetOr(art, "article_content", String("")).String?
      ==> EffectiveContent(art) == Ok(Text.Strip(GetOr(art, "article_content", String("")).s))
    ensures !ShowsOriginal(art) && GetOr(art, "article_content", String("")).Null?
      ==> EffectiveContent(art) == Ok("")
    ensures !ShowsOriginal(art) && Get(art, "article_content").None? ==> EffectiveContent(art) == Ok("")
  {
  }

  /** `"\n[title (status) - date_info]\ncontent\n"` for one article. */
  function Block(art: Value): (r: Result<string, PyError>)
    ensures !art.Object? ==> r == Err(AttributeError)
    ensures art.Object? ==> r.Ok? == EffectiveContent(art.fields).Ok?
    ensures r.Ok? ==> |r.value| >= 2 && r.value[..2] == "\n["
    ensures art.Object? && r.Ok? ==> Text.EndsWith(r.value, "]\n" + EffectiveContent(art.fields).value + "\n")
  {
    match art
    case Object(fs) =>
      var content :- EffectiveContent(fs);
      var title := Display(GetOr(fs, "article_title", String("")));
      var head := "\n[" + title + " (" + Status(fs) + ") - " + DateInfo(fs);
      var tail := "]\n" + content + "\n";
      assert (head + tail)[..2] == head[..2] == "\n[";
      assert (head + tail)[|head + tail| - |tail|..] == tail;
      Ok(head + tail)
    case _ => Err(AttributeError)
  }

  /**
   * The loop over a list of articles: one block per article, in order,
   * stopping at the first article whose block raises.
   */
  function FlattenList(arts: seq<Value>): Result<string, PyError> {
    if |arts| == 0 then Ok("")
    else
      match Block(arts[0])
      case Err(e) => Err(e)
      case Ok(b) =>
        match FlattenList(arts[1..])
        case Err(e) => Err(e)
        case Ok(rest) => Ok(b + rest)
  }

  /** The blocks of a list of articles none of which raises. */
  function BlockTexts(arts: seq<Value>): (r: seq<string>)
    requires forall i :: 0 <= i < |arts| ==> Block(arts[i]).Ok?
    ensures |r| == |arts|
    ensures forall i :: 0 <= i < |arts| ==> r[i] == Block(arts[i]).value
  {
    seq(|arts|, i requires 0 <= i < |arts| => Block(arts[i]).value)
  }

  /** Flattening succeeds exactly when every article yields a block. */
  lemma {:induction false} FlattenListOk(arts: seq<Value>)
    ensures FlattenList(arts).Ok? <==> forall i :: 0 <= i < |arts| ==> Block(arts[i]).Ok?
  {
    if |arts| > 0 {
      var rest := arts[1..];
      FlattenListOk(rest);
      if forall i :: 0 <= i < |arts| ==> Block(arts[i]).Ok? {
        forall i | 0 <= i < |rest| ensures Block(rest[i]).Ok? {
          assert rest[i] == arts[i + 1];
        }
      }
      if Block(arts[0]).Ok? && forall i :: 0 <= i < |rest| ==> Block(rest[i]).Ok? {
        forall i | 1 <= i < |arts| ensures Block(arts[i]).Ok? {
          assert arts[i] == rest[i - 1];
        }
      }
    }
  }

  /**
   * A successful flattening is the in-order concatenation of exactly one
   * block per article.
   */
  lemma {:induction false} FlattenListBlocks(arts: seq<Value>)
    requires forall i :: 0 <= i < |arts| ==> Block(arts[i]).Ok?
    ensures FlattenList(arts) == Ok(Text.Concat(BlockTexts(arts)))
  {
    if |arts| > 0 {
      FlattenListBlocks(arts[1..]);
      assert BlockTexts(arts)[1..] == BlockTexts(arts[1..]);
    }
  }

  /** A failed flattening reports the error of the first article that raises. */
  lemma {:induction false} FlattenListFirstError(arts: seq<Value>)
    requires FlattenList(arts).Err?
    ensures exists i :: FirstFailure(arts, i) && Block(arts[i]) == Err(FlattenList(arts).error)
  {
    if Block(arts[0]).Err? {
      assert FirstFailure(arts, 0);
    } else {
      FlattenListFirstError(arts[1..]);
      var i :| FirstFailure(arts[1..], i) && Block(arts[1..][i]) == Err(FlattenList(arts[1..]).error);
      assert forall j :: 0 < j <= i + 1 ==> arts[j] == arts[1..][j - 1];
      assert FirstFailure(arts, i + 1);
    }
  }

  /** `i` is the position of the first article whose block raises. */
  predicate FirstFailure(arts: seq<Value>, i: int) {
    && 0 <= i < |arts|
    && Block(arts[i]).Err?
    && forall j :: 0 <= j < i ==> Block(arts[j]).Ok?
  }

  /**
   * `_flatten_articles(doc.get("articles", []))`: `""` for a missing, `None`
   * or empty value; the joined blocks for a list; a falsy check passes any
   * other truthy value to the `for` loop, which raises.
   */
  function Flatten(articles: Value): (r: Result<string, PyError>)
    ensures !Truthy(articles) ==> r == Ok("")
    ensures articles.Array? ==> r == FlattenList(articles.items)
    ensures Truthy(articles) && !articles.Array? ==> r.Err?
  {
    if !Truthy(articles) then Ok("")
    else
      match articles
      case Array(xs) => FlattenList(xs)
      case Object(_) => Err(AttributeError)   // iterating a dict yields its keys: `str` has no `.get`
      case String(_) => Err(AttributeError)   // iterating a string yields characters
      case _ => Err(TypeError)                // a number or `True` is not iterable
  }

  /** An article with empty effective content still contributes its block. */
  lemma EmptyContentKeepsBlock(art: Fields)
    requires EffectiveContent(art) == Ok("")
    ensures Block(Object(art)).Ok?
    ensures var b := Block(Object(art)).value; b[|b| - 3..] == "]\n\n"
  {
  }

  /** `_create_header`: document number, decision name, address and a rule of 20 dashes, one per line. */
  function Header(doc: Fields): (r: string)
    ensures var rule := Text.Repeat('-', 20) + "\n"; |rule| <= |r| && r[|r| - |rule|..] == rule
  {
    "وثيقة رقم: " + Display(GetOr(doc, "element_id", String(""))) + "\n"
    + "القرار: " + Display(GetOr(doc, "decision_name", String(""))) + "\n"
    + "العنوان: " + Display(GetOr(doc, "law_address", String(""))) + "\n"
    + Text.Repeat('-', 20) + "\n"
  }
}
