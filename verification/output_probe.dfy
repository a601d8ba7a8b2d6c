/** Where the dispatcher looks for the generated images in a finished
    prompt's outputs: a fixed, ordered list of node ids, the first one that
    is present with a non-empty `images` list wins. */
module OutputProbe {
  import opened Common
  import opened Backend

  /** "60" (SaveImage of the current workflows), then "8" (older
      text-to-image), then "115:116" (image-to-image). */
  const OutputNodes: seq<string> := ["60", "8", "115:116"]

  const NoImagesPrefix: string := "未找到生成的图像，可用节点: "

  /** The text of the exception raised when a candidate node has no
      "images" entry: the key name in quotes. */
  const MissingImagesKeyText: string := "'images'"

  /** The probe moves past a candidate without raising: the node is absent
      or its images list is empty. */
  predicate Passed(outputs: Outputs, key: string) {
    match Lookup(outputs, key)
    case None => true
    case Some(node) => node.images == Some([])
  }

  datatype ProbeResult =
    | Found(at: nat, images: seq<Image>)   // candidate `at` holds these images
    | ImagesKeyMissing(at: nat)            // candidate `at` is present without "images"
    | NothingFound                         // every candidate passed

  /** The `if / elif / elif` chain over the candidate node ids. */
  function ProbeFrom(outputs: Outputs, candidates: seq<string>): (r: ProbeResult)
    ensures r.Found? ==>
      && r.at < |candidates| && r.images != []
      && Lookup(outputs, candidates[r.at]) == Some(Node(Some(r.images)))
      && forall j :: 0 <= j < r.at ==> Passed(outputs, candidates[j])
    ensures r.ImagesKeyMissing? ==>
      && r.at < |candidates|
      && Lookup(outputs, candidates[r.at]) == Some(Node(None))
      && forall j :: 0 <= j < r.at ==> Passed(outputs, candidates[j])
    ensures r.NothingFound? <==> forall j :: 0 <= j < |candidates| ==> Passed(outputs, candidates[j])
  {
    if candidates == [] then NothingFound
    else
      var here := Lookup(outputs, candidates[0]);
      if here.Some? && here.value.images.None? then ImagesKeyMissing(0)
      else if here.Some? && here.value.images.value != [] then Found(0, here.value.images.value)
      else
        match ProbeFrom(outputs, candidates[1..])
        case Found(at, images) => Found(at + 1, images)
        case ImagesKeyMissing(at) => ImagesKeyMissing(at + 1)
        case NothingFound => NothingFound
  }

  /** The probe over "60", "8", "115:116": the images of the first of them
      that holds some, unless an earlier one present lacks "images". */
  function Probe(outputs: Outputs): (r: ProbeResult)
    ensures r.Found? ==>
      && r.at < |OutputNodes| && r.images != []
      && Lookup(outputs, OutputNodes[r.at]) == Some(Node(Some(r.images)))
      && forall j :: 0 <= j < r.at ==> Passed(outputs, OutputNodes[j])
    ensures r.ImagesKeyMissing? ==>
      && r.at < |OutputNodes|
      && Lookup(outputs, OutputNodes[r.at]) == Some(Node(None))
      && forall j :: 0 <= j < r.at ==> Passed(outputs, OutputNodes[j])
    ensures r.NothingFound? <==>
      Passed(outputs, "60") && Passed(outputs, "8") && Passed(outputs, "115:116")
  {
    assert |OutputNodes| == 3;
    assert OutputNodes[0] == "60" && OutputNodes[1] == "8" && OutputNodes[2] == "115:116";
    ProbeFrom(outputs, OutputNodes)
  }

  /** Python's `repr` of one key (keys are node ids: no quotes or escapes). */
  function Quoted(key: string): string {
    "'" + key + "'"
  }

  /** The items of Python's `repr` of a list of keys, comma separated. */
  function JoinQuoted(keys: seq<string>): string
    decreases |keys|
  {
    if keys == [] then ""
    else if |keys| == 1 then Quoted(keys[0])
    else Quoted(keys[0]) + ", " + JoinQuoted(keys[1..])
  }

  /** The failure text when no candidate holds images: "no generated
      images found, available nodes:" followed by the list of node ids. */
  function NoImagesError(outputs: Outputs): (r: string)
    ensures |NoImagesPrefix| + 2 <= |r|
    ensures r[..|NoImagesPrefix|] == NoImagesPrefix
    ensures r[|NoImagesPrefix|] == '[' && r[|r| - 1] == ']'
  {
    NoImagesPrefix + "[" + JoinQuoted(Keys(outputs)) + "]"
  }

  lemma {:induction false} JoinQuotedListsEach(keys: seq<string>, i: nat)
    requires i < |keys|
    ensures Infix(Quoted(keys[i]), JoinQuoted(keys))
    decreases |keys|
  {
    if i == 0 {
      InfixSelf(Quoted(keys[0]));
      if |keys| > 1 {
        InfixOfConcat(Quoted(keys[0]), Quoted(keys[0]), "", ", " + JoinQuoted(keys[1..]));
        assert "" + Quoted(keys[0]) + (", " + JoinQuoted(keys[1..])) == JoinQuoted(keys);
      }
    } else {
      JoinQuotedListsEach(keys[1..], i - 1);
      InfixOfConcat(Quoted(keys[i]), JoinQuoted(keys[1..]), Quoted(keys[0]) + ", ", "");
      assert Quoted(keys[0]) + ", " + JoinQuoted(keys[1..]) + "" == JoinQuoted(keys);
    }
  }

  /** The failure text names every output node the backend reported. */
  lemma NoImagesErrorListsEveryKey(outputs: Outputs)
    ensures forall i :: 0 <= i < |outputs| ==> Infix(Quoted(outputs[i].0), NoImagesError(outputs))
  {
    forall i | 0 <= i < |outputs|
      ensures Infix(Quoted(outputs[i].0), NoImagesError(outputs))
    {
      var keys := Keys(outputs);
      JoinQuotedListsEach(keys, i);
      InfixOfConcat(Quoted(keys[i]), JoinQuoted(keys), NoImagesPrefix + "[", "]");
    }
  }

  /** The probe's choice does not depend on nodes outside the candidate
      list. */
  lemma ProbeIgnoresOtherNodes(outputs: Outputs, extra: string, node: Node)
    requires extra !in OutputNodes
    ensures Probe(outputs + [(extra, node)]) == Probe(outputs)
  {
    forall k | k in OutputNodes ensures Lookup(outputs + [(extra, node)], k) == Lookup(outputs, k) {
      LookupAppendOther(outputs, extra, node, k);
    }
  }

  lemma {:induction false} LookupAppendOther(outputs: Outputs, extra: string, node: Node, k: string)
    requires k != extra
    ensures Lookup(outputs + [(extra, node)], k) == Lookup(outputs, k)
    decreases |outputs|
  {
    if outputs == [] {
      assert outputs + [(extra, node)] == [(extra, node)];
      assert [(extra, node)][1..] == [];
    } else {
      assert (outputs + [(extra, node)])[1..] == outputs[1..] + [(extra, node)];
      LookupAppendOther(outputs[1..], extra, node, k);
    }
  }
}
