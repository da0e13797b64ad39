/**
 * The cue realignment of the caption translation pipeline (`translateSrt` and
 * `translateRequest` in index.js).
 *
 * A parsed subtitle file is a sequence of cues. The pipeline splits it at the
 * midpoint `Math.ceil(N / 2)`, sends the `text` of each half as one batch to a
 * translation provider, concatenates the two translated batches and rebuilds
 * the cue sequence with cue i's text replaced by translation i.
 */
module Translation {

  /** One parsed cue. `rest` stands for every field of the parser's cue object
      other than `text`; the model never looks at it. */
  datatype Cue<R> = Cue(rest: R, text: string)

  /** The options every translation request is sent with. */
  datatype TranslateOptions = TranslateOptions(to: string, model: string)

  const OPTIONS: TranslateOptions := TranslateOptions("es", "nmt")

  /** The external translation service: a batch of strings and the request
      options in, a batch of translated strings out. */
  type Provider = (seq<string>, TranslateOptions) -> seq<string>

  /** `Math.ceil(n / 2)` on the real quotient, as the split point. */
  function Middle(n: nat): (m: nat)
    ensures m as real >= n as real / 2.0
    ensures (m - 1) as real < n as real / 2.0
  {
    (n + 1) / 2
  }

  /** `srtArr.slice(0, middle)` and `srtArr.slice(middle)`. */
  function Split<R>(cues: seq<Cue<R>>): (halves: (seq<Cue<R>>, seq<Cue<R>>))
    ensures halves.0 + halves.1 == cues
    ensures |halves.0| == |cues| - |cues| / 2
    ensures |halves.1| == |cues| / 2
  {
    var middle := Middle(|cues|);
    (cues[..middle], cues[middle..])
  }

  /** The batch a request sends: the `text` of every cue, in order. */
  function Texts<R>(cues: seq<Cue<R>>): (ts: seq<string>)
    ensures |ts| == |cues|
    ensures forall i :: 0 <= i < |cues| ==> ts[i] == cues[i].text
  {
    if cues == [] then [] else [cues[0].text] + Texts(cues[1..])
  }

  /** Every field other than `text`, of every cue, in order. */
  function Rests<R>(cues: seq<Cue<R>>): (rs: seq<R>)
    ensures |rs| == |cues|
    ensures forall i :: 0 <= i < |cues| ==> rs[i] == cues[i].rest
  {
    if cues == [] then [] else [cues[0].rest] + Rests(cues[1..])
  }

  /** `srtArr.map((srtObject, i) => ({...srtObject, text: translations[i]}))`. */
  function ReplaceTexts<R>(cues: seq<Cue<R>>, translations: seq<string>): (r: seq<Cue<R>>)
    requires |translations| == |cues|
    ensures |r| == |cues|
    ensures forall i :: 0 <= i < |cues| ==> r[i].rest == cues[i].rest && r[i].text == translations[i]
  {
    if cues == [] then []
    else [cues[0].(text := translations[0])] + ReplaceTexts(cues[1..], translations[1..])
  }

  /** One call of `translateRequest`: the provider applied to the batch of texts,
      with the fixed options `to: "es"`, `model: "nmt"`. */
  function TranslateRequest<R>(provider: Provider, cues: seq<Cue<R>>): seq<string>
  {
    provider(Texts(cues), OPTIONS)
  }

  /** The provider answered a batch with exactly as many strings as it was sent. */
  predicate Aligned(provider: Provider, batch: seq<string>)
  {
    |provider(batch, OPTIONS)| == |batch|
  }

  /** Each string of a batch translated on its own by `f`, in order. */
  function MapTexts(f: string -> string, batch: seq<string>): (r: seq<string>)
    ensures |r| == |batch|
    ensures forall j :: 0 <= j < |batch| ==> r[j] == f(batch[j])
  {
    if batch == [] then [] else [f(batch[0])] + MapTexts(f, batch[1..])
  }

  /** The provider translates each string on its own, by `f`, whatever batch it is in. */
  ghost predicate Elementwise(provider: Provider, f: string -> string)
  {
    forall batch: seq<string> :: provider(batch, OPTIONS) == MapTexts(f, batch)
  }

  /** `translateSrt`: both halves are translated, the results are concatenated
      in order, and cue i receives translation i. The source does not check the
      lengths of the two answers, so a caller must supply a provider that keeps them. */
  function TranslateSrt<R>(provider: Provider, cues: seq<Cue<R>>): (r: seq<Cue<R>>)
    requires Aligned(provider, Texts(Split(cues).0))
    requires Aligned(provider, Texts(Split(cues).1))
    ensures |r| == |cues|
    ensures Rests(r) == Rests(cues)
    ensures Texts(r) == TranslateRequest(provider, Split(cues).0) + TranslateRequest(provider, Split(cues).1)
  {
    var (first, second) := Split(cues);
    var translations := TranslateRequest(provider, first) + TranslateRequest(provider, second);
    var r := ReplaceTexts(cues, translations);
    TextsOfReplaceTexts(cues, translations);
    r
  }

  /** Replacing the texts sets exactly the new texts and keeps every other field. */
  lemma {:induction false} TextsOfReplaceTexts<R>(cues: seq<Cue<R>>, translations: seq<string>)
    requires |translations| == |cues|
    ensures Texts(ReplaceTexts(cues, translations)) == translations
    ensures Rests(ReplaceTexts(cues, translations)) == Rests(cues)
  {
  }

  /** Replacing every text by itself gives the original cues back. */
  lemma {:induction false} ReplaceTextsIdentity<R>(cues: seq<Cue<R>>)
    ensures ReplaceTexts(cues, Texts(cues)) == cues
  {
    var r := ReplaceTexts(cues, Texts(cues));
    forall i | 0 <= i < |cues| ensures r[i] == cues[i] {
      assert r[i].rest == cues[i].rest && r[i].text == cues[i].text;
    }
  }

  /** A cue sequence is determined by its texts and its other fields, so the
      contract of TranslateSrt fixes its result completely. */
  lemma {:induction false} DeterminedByParts<R>(a: seq<Cue<R>>, b: seq<Cue<R>>)
    requires Texts(a) == Texts(b) && Rests(a) == Rests(b)
    ensures a == b
  {
  }

  /** The batches of the two halves, one after the other, are the batch of the
      whole file: no text is dropped, duplicated or reordered by the split. */
  lemma {:induction false} TextsAppend<R>(a: seq<Cue<R>>, b: seq<Cue<R>>)
    ensures Texts(a + b) == Texts(a) + Texts(b)
  {
    if a == [] {
      assert a + b == b;
    } else {
      assert (a + b)[1..] == a[1..] + b;
      TextsAppend(a[1..], b);
    }
  }

  /** The two requests together send the texts of all cues, in file order. */
  lemma {:induction false} BatchesInFileOrder<R>(cues: seq<Cue<R>>)
    ensures Texts(Split(cues).0) + Texts(Split(cues).1) == Texts(cues)
  {
    TextsAppend(Split(cues).0, Split(cues).1);
  }

  /** Cue i of the output keeps every field of input cue i except `text`, which
      is entry i of the concatenated translations. */
  lemma {:induction false} TranslateSrtAt<R>(provider: Provider, cues: seq<Cue<R>>, i: nat)
    requires Aligned(provider, Texts(Split(cues).0))
    requires Aligned(provider, Texts(Split(cues).1))
    requires i < |cues|
    ensures TranslateSrt(provider, cues)[i].rest == cues[i].rest
    ensures TranslateSrt(provider, cues)[i].text
         == (TranslateRequest(provider, Split(cues).0) + TranslateRequest(provider, Split(cues).1))[i]
  {
  }

  /** An element-wise provider satisfies the precondition of TranslateSrt on every input. */
  lemma {:induction false} ElementwiseAligned<R>(provider: Provider, f: string -> string, cues: seq<Cue<R>>)
    requires Elementwise(provider, f)
    ensures Aligned(provider, Texts(Split(cues).0))
    ensures Aligned(provider, Texts(Split(cues).1))
  {
  }

  /** Translating two batches one by one and concatenating the answers is
      translating their concatenation. */
  lemma {:induction false} MapTextsAppend(f: string -> string, a: seq<string>, b: seq<string>)
    ensures MapTexts(f, a) + MapTexts(f, b) == MapTexts(f, a + b)
  {
    if a == [] {
      assert a + b == b;
    } else {
      assert (a + b)[1..] == a[1..] + b;
      MapTextsAppend(f, a[1..], b);
    }
  }

  /** Split and merge equals translating the whole file in one batch: with an
      element-wise provider, output cue i carries `f` of input cue i's text. */
  lemma {:induction false} SplitMergeIsWholeBatch<R>(provider: Provider, f: string -> string, cues: seq<Cue<R>>)
    requires Elementwise(provider, f)
    ensures Aligned(provider, Texts(Split(cues).0)) && Aligned(provider, Texts(Split(cues).1))
    ensures TranslateSrt(provider, cues) == ReplaceTexts(cues, TranslateRequest(provider, cues))
    ensures forall i :: 0 <= i < |cues| ==> TranslateSrt(provider, cues)[i].text == f(cues[i].text)
  {
    ElementwiseAligned(provider, f, cues);
    var (first, second) := Split(cues);
    BatchesInFileOrder(cues);
    MapTextsAppend(f, Texts(first), Texts(second));
    var whole := TranslateRequest(provider, cues);
    assert whole == MapTexts(f, Texts(cues));
    assert TranslateRequest(provider, first) + TranslateRequest(provider, second) == whole;
    var r := TranslateSrt(provider, cues);
    var w := ReplaceTexts(cues, whole);
    TextsOfReplaceTexts(cues, whole);
    DeterminedByParts(r, w);
    forall i | 0 <= i < |cues| ensures r[i].text == f(cues[i].text) {
      assert whole[i] == f(Texts(cues)[i]);
    }
  }

  /** An empty file: both halves are empty, both requests send an empty batch,
      and the result is empty. */
  lemma {:induction false} TranslateSrtEmpty<R>(provider: Provider)
    requires Aligned(provider, [])
    ensures Split<R>([]) == ([], [])
    ensures Texts<R>([]) == []
    ensures TranslateSrt<R>(provider, []) == []
  {
  }

  /** The odd-length case: five cues are split three and two. */
  lemma {:induction false} SplitFive<R>(cues: seq<Cue<R>>)
    requires |cues| == 5
    ensures Split(cues) == (cues[..3], cues[3..])
  {
  }

  /** An illustrative stand-in for the non-text fields of a cue, used only in the example below. */
  datatype Timing = Timing(index: nat, startTime: nat, endTime: nat)

  function Spanish(t: string): string
  {
    if t == "Hello" then "Hola" else if t == "World" then "Mundo" else t
  }

  /** Two cues translated by a stub provider keep their timing and receive their translations. */
  lemma {:induction false} HelloWorld()
    ensures
      var provider: Provider := (batch: seq<string>, o: TranslateOptions) => MapTexts(Spanish, batch);
      var cues := [Cue(Timing(1, 0, 1000), "Hello"), Cue(Timing(2, 1000, 2000), "World")];
      Aligned(provider, Texts(Split(cues).0)) && Aligned(provider, Texts(Split(cues).1)) &&
      TranslateSrt(provider, cues) == [Cue(Timing(1, 0, 1000), "Hola"), Cue(Timing(2, 1000, 2000), "Mundo")]
  {
    var provider: Provider := (batch: seq<string>, o: TranslateOptions) => MapTexts(Spanish, batch);
    var cues := [Cue(Timing(1, 0, 1000), "Hello"), Cue(Timing(2, 1000, 2000), "World")];
    SplitMergeIsWholeBatch(provider, Spanish, cues);
    var r := TranslateSrt(provider, cues);
    var expected := [Cue(Timing(1, 0, 1000), "Hola"), Cue(Timing(2, 1000, 2000), "Mundo")];
    assert r[0].text == Spanish("Hello") == "Hola";
    assert r[1].text == Spanish("World") == "Mundo";
    DeterminedByParts(r, expected);
  }
}
