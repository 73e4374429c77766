/**
 * The model registry (ModelManager): the list of scene models. The singleton `instance()`
 * becomes an ordinary object; a model's type, material and transform are not part of this
 * model.
 */
module ModelManagement {
  import Lists

  class Model {
    /** deleteLater has been called on this model. */
    ghost var destroyed: bool

    constructor ()
      ensures !destroyed
    {
      destroyed := false;
    }
  }

  class ModelManager {
    var models: seq<Model>

    /** The singleton starts with no models. */
    constructor ()
      ensures models == []
    {
      models := [];
    }

    method AddModel(model: Model)
      modifies this`models
      ensures models == old(models) + [model]
    {
      models := models + [model];
    }

    /** removeModel: null does nothing; otherwise every occurrence leaves the list and the model is deleted. */
    method RemoveModel(model: Model?)
      modifies this`models, (if model == null then {} else {model})`destroyed
      ensures model == null ==> models == old(models)
      ensures model != null ==> models == Lists.RemoveAll<Model>(old(models), model) && model.destroyed
    {
      if model != null {
        models := Lists.RemoveAll<Model>(models, model);
        model.destroyed := true;
      }
    }
  }
}
