/** mining/proxy/operations/text_to_image_operation.py and
    inpaint_operation.py: the miner runs the generation logic on the request's
    fields and copies every field of the output onto the request in place. The
    generation logic itself is not part of this model; it is the parameter
    `logic`, from the request's dump to the output's dump. */
module ImageOperations {
  import opened FieldValues

  /** The request after the copy: every output field overrides, every other
      field keeps its value. */
  ghost predicate CopiedOnto(before: Fields, output: Fields, after: Fields) {
    && after.Keys == before.Keys + output.Keys
    && (forall k :: k in output ==> after[k] == output[k])
    && (forall k :: k in before && k !in output ==> after[k] == before[k])
  }

  /** The setattr loop: copy every field of `output` onto `synapse`. */
  method CopyFields(synapse: SynapseObject, output: Fields)
    modifies synapse
    ensures CopiedOnto(old(synapse.fields), output, synapse.fields)
  {
    var remaining := output.Keys;
    ghost var before := synapse.fields;
    while remaining != {}
      invariant remaining <= output.Keys
      invariant synapse.fields.Keys == before.Keys + (output.Keys - remaining)
      invariant forall k :: k in output && k !in remaining ==> synapse.fields[k] == output[k]
      invariant forall k :: k in before && (k !in output || k in remaining) ==> synapse.fields[k] == before[k]
      decreases remaining
    {
      var field :| field in remaining;
      synapse.SetAttr(field, output[field]);
      remaining := remaining - {field};
    }
  }

  /** TextToImageOperation.forward: the logic sees the request as it was, the
      output is copied onto it, and the same object is returned. */
  method TextToImageForward(synapse: SynapseObject, logic: Fields -> Fields) returns (r: SynapseObject)
    modifies synapse
    ensures r == synapse
    ensures CopiedOnto(old(synapse.fields), logic(old(synapse.fields)), synapse.fields)
  {
    var output := logic(synapse.fields);
    CopyFields(synapse, output);
    r := synapse;
  }

  /** InpaintOperation.forward: the logic sees the original images; then
      init_image and mask_image are cleared and the output copied over. */
  method InpaintForward(synapse: SynapseObject, logic: Fields -> Fields) returns (r: SynapseObject)
    modifies synapse
    ensures r == synapse
    ensures CopiedOnto(old(synapse.fields)["init_image" := VNone]["mask_image" := VNone],
                       logic(old(synapse.fields)), synapse.fields)
  {
    var output := logic(synapse.fields);
    synapse.SetAttr("init_image", VNone);
    synapse.SetAttr("mask_image", VNone);
    CopyFields(synapse, output);
    r := synapse;
  }

  /** After an inpaint, both images are None unless the output supplies them,
      and no other field of the request changes unless the output supplies it. */
  lemma InpaintClearsImages(before: Fields, output: Fields, after: Fields)
    requires CopiedOnto(before["init_image" := VNone]["mask_image" := VNone], output, after)
    ensures "init_image" in after && "mask_image" in after
    ensures "init_image" !in output ==> after["init_image"] == VNone
    ensures "mask_image" !in output ==> after["mask_image"] == VNone
    ensures forall k :: k in before && k !in output && k != "init_image" && k != "mask_image" ==> after[k] == before[k]
  {
  }

  /** Copying is idempotent: copying the same output again changes nothing. */
  lemma CopyIsIdempotent(before: Fields, output: Fields, after: Fields, again: Fields)
    requires CopiedOnto(before, output, after) && CopiedOnto(after, output, again)
    ensures again == after
  {
  }
}
