/** The layer list of the exported document (`buildLayers`): which layers exist, in which order,
    under which names. What each layer's pixels look like is drawn by the browser and stays
    abstract: a `render` function gives the raster of each kind of layer. */
module LayerPlan {
  import opened Bytes
  import opened Psd

  /** The name of the background image layer, "漫画图片". */
  const ImageLayerName: string := "漫画图片"
  /** The name of the layer holding every bubble body and tail, "泡泡". */
  const BubbleLayerName: string := "泡泡"
  /** The prefix of a text layer's name, "文字-", followed by the bubble id. */
  const TextLayerPrefix: string := "文字-"

  /** What a bubble contributes to the layer list: its id and its text. */
  datatype BubbleText = BubbleText(id: string, text: string)

  /** Where the pixels of a layer come from. */
  datatype LayerSource = BackgroundImage | BubbleBodies | TextOf(bubbleId: string)

  datatype PlannedLayer = PlannedLayer(name: string, source: LayerSource)

  function TextLayerName(id: string): string
  {
    TextLayerPrefix + id
  }

  /** The text layers: one per bubble whose text is non-empty, in bubble order. */
  function TextLayers(bubbles: seq<BubbleText>): (plan: seq<PlannedLayer>)
    ensures |plan| <= |bubbles|
    decreases |bubbles|
  {
    if bubbles == [] then []
    else
      var last := bubbles[|bubbles| - 1];
      TextLayers(bubbles[..|bubbles| - 1])
      + (if last.text != "" then [PlannedLayer(TextLayerName(last.id), TextOf(last.id))] else [])
  }

  lemma TextLayersSnoc(bubbles: seq<BubbleText>, k: nat)
    requires k < |bubbles|
    ensures TextLayers(bubbles[..k + 1]) == TextLayers(bubbles[..k]) +
      (if bubbles[k].text != "" then [PlannedLayer(TextLayerName(bubbles[k].id), TextOf(bubbles[k].id))] else [])
  {
    assert bubbles[..k + 1][..k] == bubbles[..k];
  }

  /** The layer list `buildLayers` produces: the image layer when an image is loaded, then the
      bubble layer when there is at least one bubble, then the text layers. */
  function Plan(hasImage: bool, bubbles: seq<BubbleText>): seq<PlannedLayer>
  {
    FixedLayers(hasImage, |bubbles| > 0) + TextLayers(bubbles)
  }

  /** The bubbles with non-empty text, in order. */
  function WithText(bubbles: seq<BubbleText>): (r: seq<BubbleText>)
    ensures |r| <= |bubbles|
    decreases |bubbles|
  {
    if bubbles == [] then []
    else
      var last := bubbles[|bubbles| - 1];
      WithText(bubbles[..|bubbles| - 1]) + (if last.text != "" then [last] else [])
  }

  /** The text layers are exactly the bubbles with text, in bubble order, each named after its
      bubble and drawn from it. */
  lemma {:induction false} TextLayersAreBubblesWithText(bubbles: seq<BubbleText>)
    ensures var plan := TextLayers(bubbles); var texts := WithText(bubbles);
      |plan| == |texts| &&
      forall i :: 0 <= i < |plan| ==>
        plan[i] == PlannedLayer(TextLayerName(texts[i].id), TextOf(texts[i].id)) && texts[i].text != ""
    decreases |bubbles|
  {
    if bubbles != [] {
      TextLayersAreBubblesWithText(bubbles[..|bubbles| - 1]);
    }
  }

  /** A bubble with text is among the bubbles with text. */
  lemma {:induction false} WithTextContains(bubbles: seq<BubbleText>, i: nat)
    requires i < |bubbles| && bubbles[i].text != ""
    ensures bubbles[i] in WithText(bubbles)
    decreases |bubbles|
  {
    if i < |bubbles| - 1 {
      WithTextContains(bubbles[..|bubbles| - 1], i);
      assert bubbles[..|bubbles| - 1][i] == bubbles[i];
    }
  }

  /** Every bubble with text is one of the original bubbles. */
  lemma {:induction false} WithTextWithin(bubbles: seq<BubbleText>, b: BubbleText)
    requires b in WithText(bubbles)
    ensures b in bubbles && b.text != ""
    decreases |bubbles|
  {
    if bubbles != [] {
      var init := bubbles[..|bubbles| - 1];
      if b in WithText(init) {
        WithTextWithin(init, b);
      }
    }
  }

  /** Layer count and the position of the fixed layers. */
  lemma PlanShape(hasImage: bool, bubbles: seq<BubbleText>)
    ensures var plan := Plan(hasImage, bubbles);
      var fixed := (if hasImage then 1 else 0) + (if |bubbles| > 0 then 1 else 0);
      |plan| == fixed + |WithText(bubbles)| &&
      (hasImage <==> |plan| > 0 && plan[0].source == BackgroundImage) &&
      (|bubbles| > 0 <==> exists i :: 0 <= i < |plan| && plan[i].source == BubbleBodies) &&
      (|bubbles| > 0 ==> plan[fixed - 1] == PlannedLayer(BubbleLayerName, BubbleBodies)) &&
      plan[fixed..] == TextLayers(bubbles)
  {
    var plan := Plan(hasImage, bubbles);
    var fixed := (if hasImage then 1 else 0) + (if |bubbles| > 0 then 1 else 0);
    TextLayersAreBubblesWithText(bubbles);
    assert plan[fixed..] == TextLayers(bubbles);
    if |bubbles| > 0 {
      assert plan[fixed - 1].source == BubbleBodies;
    }
  }

  /** Distinct bubble ids give distinct layer names, none equal to the two fixed names. */
  lemma PlanNamesDistinct(hasImage: bool, bubbles: seq<BubbleText>)
    requires forall i, j :: 0 <= i < j < |bubbles| ==> bubbles[i].id != bubbles[j].id
    ensures var plan := Plan(hasImage, bubbles);
      forall i, j :: 0 <= i < j < |plan| ==> plan[i].name != plan[j].name
  {
    var plan := Plan(hasImage, bubbles);
    var fixed := FixedLayers(hasImage, |bubbles| > 0);
    var texts := TextLayers(bubbles);
    assert plan == fixed + texts;
    TextLayerNames(bubbles);
    forall i, j | 0 <= i < j < |plan|
      ensures plan[i].name != plan[j].name
    {
      if j >= |fixed| {
        var nj := texts[j - |fixed|].name;
        assert plan[j].name == nj;
        if i >= |fixed| {
          assert plan[i] == texts[i - |fixed|];
        } else {
          assert |nj| >= |TextLayerPrefix| && nj[..|TextLayerPrefix|] == TextLayerPrefix;
          assert nj[0] == TextLayerPrefix[0];
          assert plan[i] == fixed[i];
          assert plan[i].name[0] != TextLayerPrefix[0];
        }
      } else {
        assert fixed == [PlannedLayer(ImageLayerName, BackgroundImage), PlannedLayer(BubbleLayerName, BubbleBodies)];
      }
    }
  }

  /** The text layer names are pairwise distinct and all start with the text prefix. */
  lemma TextLayerNames(bubbles: seq<BubbleText>)
    requires forall i, j :: 0 <= i < j < |bubbles| ==> bubbles[i].id != bubbles[j].id
    ensures forall i, j :: 0 <= i < j < |TextLayers(bubbles)| ==>
      TextLayers(bubbles)[i].name != TextLayers(bubbles)[j].name
    ensures forall i :: 0 <= i < |TextLayers(bubbles)| ==>
      |TextLayers(bubbles)[i].name| >= |TextLayerPrefix| &&
      TextLayers(bubbles)[i].name[..|TextLayerPrefix|] == TextLayerPrefix
  {
    var texts := TextLayers(bubbles);
    var withText := WithText(bubbles);
    TextLayersAreBubblesWithText(bubbles);
    WithTextDistinct(bubbles);
    forall i, j | 0 <= i < j < |texts|
      ensures texts[i].name != texts[j].name
    {
      var ni, nj := texts[i].name, texts[j].name;
      assert ni == TextLayerPrefix + withText[i].id && nj == TextLayerPrefix + withText[j].id;
      assert ni[|TextLayerPrefix|..] == withText[i].id;
      assert nj[|TextLayerPrefix|..] == withText[j].id;
    }
  }

  /** Filtering keeps ids distinct. */
  lemma {:induction false} WithTextDistinct(bubbles: seq<BubbleText>)
    requires forall i, j :: 0 <= i < j < |bubbles| ==> bubbles[i].id != bubbles[j].id
    ensures var texts := WithText(bubbles);
      forall i, j :: 0 <= i < j < |texts| ==> texts[i].id != texts[j].id
    decreases |bubbles|
  {
    if bubbles != [] {
      var init := bubbles[..|bubbles| - 1];
      var last := bubbles[|bubbles| - 1];
      WithTextDistinct(init);
      var texts := WithText(bubbles);
      var before := WithText(init);
      if last.text != "" {
        forall i | 0 <= i < |before|
          ensures before[i].id != last.id
        {
          WithTextWithin(init, before[i]);
          var k :| 0 <= k < |init| && init[k] == before[i];
        }
      }
    }
  }

  /** `buildLayers`: pushes the image layer, the bubble layer and the non-null text layers in
      that order. Each layer is `buildRasterLayer` of its name and the raster `render` draws for
      it. */
  method BuildLayers(hasImage: bool, bubbles: seq<BubbleText>, render: LayerSource -> Raster)
    returns (layers: seq<Layer>)
    requires forall s :: render(s).WellFormed()
    ensures var plan := Plan(hasImage, bubbles);
      |layers| == |plan| &&
      forall i :: 0 <= i < |plan| ==> layers[i] == RasterLayer(plan[i].name, render(plan[i].source))
  {
    layers := [];
    ghost var planned: seq<PlannedLayer> := [];
    if hasImage {
      var imageLayer := BuildRasterLayer(ImageLayerName, render(BackgroundImage));
      layers := layers + [imageLayer];
      planned := planned + [PlannedLayer(ImageLayerName, BackgroundImage)];
    }
    if |bubbles| > 0 {
      var bubbleLayer := BuildRasterLayer(BubbleLayerName, render(BubbleBodies));
      layers := layers + [bubbleLayer];
      planned := planned + [PlannedLayer(BubbleLayerName, BubbleBodies)];
    }
    assert planned == FixedLayers(hasImage, |bubbles| > 0);
    layers := PushTextLayers(layers, planned, bubbles, render);
  }

  /** The image and bubble layers at the head of the plan. */
  function FixedLayers(hasImage: bool, hasBubbles: bool): seq<PlannedLayer>
  {
    (if hasImage then [PlannedLayer(ImageLayerName, BackgroundImage)] else [])
    + (if hasBubbles then [PlannedLayer(BubbleLayerName, BubbleBodies)] else [])
  }

  /** The text-layer part of `buildLayers`: `buildTextLayer` of every bubble, in bubble order,
      keeping the non-null results, appended to the layers built so far. */
  method PushTextLayers(layers0: seq<Layer>, ghost fixed: seq<PlannedLayer>, bubbles: seq<BubbleText>,
                        render: LayerSource -> Raster)
    returns (layers: seq<Layer>)
    requires forall s :: render(s).WellFormed()
    requires |layers0| == |fixed|
    requires forall i :: 0 <= i < |fixed| ==> layers0[i] == RasterLayer(fixed[i].name, render(fixed[i].source))
    ensures var plan := fixed + TextLayers(bubbles);
      |layers| == |plan| &&
      forall i :: 0 <= i < |plan| ==> layers[i] == RasterLayer(plan[i].name, render(plan[i].source))
  {
    layers := layers0;
    ghost var planned := fixed;
    for k := 0 to |bubbles|
      invariant planned == fixed + TextLayers(bubbles[..k])
      invariant |layers| == |planned|
      invariant forall i :: 0 <= i < |planned| ==>
        layers[i] == RasterLayer(planned[i].name, render(planned[i].source))
    {
      TextLayersSnoc(bubbles, k);
      var bubble := bubbles[k];
      if bubble.text != "" {
        var textLayer := BuildRasterLayer(TextLayerName(bubble.id), render(TextOf(bubble.id)));
        layers := layers + [textLayer];
        planned := planned + [PlannedLayer(TextLayerName(bubble.id), TextOf(bubble.id))];
      }
    }
    assert bubbles[..|bubbles|] == bubbles;
  }
}
