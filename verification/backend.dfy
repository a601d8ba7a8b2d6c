/** What the generation backend (ComfyUI) hands the dispatcher, abstracted
    to the parts the dispatcher inspects, and the outcome of a call to it. */
module Backend {
  import opened Common

  /** One entry of a node's `images` list; `subfolder` and `type` are only
      forwarded to the download call and are not modelled. */
  datatype Image = Image(filename: string)

  /** One output node; `images` is `None` when the node has no "images" key
      (indexing it raises `KeyError`). */
  datatype Node = Node(images: Option<seq<Image>>)

  /** The outputs of a finished prompt: node id to node, in the order the
      backend listed them. */
  type Outputs = seq<(string, Node)>

  /** The answer to one `get_history(prompt_id)` request: the prompt id not
      (yet) in the history (including a non-200 reply, read as `{}`), its
      outputs, or an exception whose `str()` is `text`. */
  datatype Poll = NotReady | Ready(outputs: Outputs) | PollRaised(text: string)

  /** A call into the backend either returns or raises an exception whose
      `str()` is `text`. */
  datatype Call<+T> = Returned(value: T) | Raised(text: string)

  /** The node stored under a node id, if the outputs hold that id. */
  function Lookup(outputs: Outputs, key: string): (r: Option<Node>)
    ensures r.None? <==> forall i :: 0 <= i < |outputs| ==> outputs[i].0 != key
    ensures r.Some? ==> exists i :: 0 <= i < |outputs| && outputs[i] == (key, r.value)
  {
    if outputs == [] then None
    else if outputs[0].0 == key then Some(outputs[0].1)
    else
      var r := Lookup(outputs[1..], key);
      assert r.Some? ==> exists i :: 0 <= i < |outputs| - 1 && outputs[1..][i] == (key, r.value);
      r
  }

  /** The node ids of the outputs, in order. */
  function Keys(outputs: Outputs): (r: seq<string>)
    ensures |r| == |outputs|
    ensures forall i :: 0 <= i < |r| ==> r[i] == outputs[i].0
  {
    seq(|outputs|, i requires 0 <= i < |outputs| => outputs[i].0)
  }
}
