/**
 * The light registry (LightManager): the list of lights and the active one. The singleton
 * `instance()` becomes an ordinary object; a light's colour and coefficients are not part of
 * this model.
 */
module LightManagement {
  import Lists

  class Light {
    /** deleteLater has been called on this light. */
    ghost var destroyed: bool

    constructor ()
      ensures !destroyed
    {
      destroyed := false;
    }
  }

  class LightManager {
    var lights: seq<Light>
    var activeLight: Light?

    /** The singleton starts with no lights and no active light. */
    constructor ()
      ensures lights == [] && activeLight == null
    {
      lights := [];
      activeLight := null;
    }

    method AddLight(light: Light)
      modifies this`lights
      ensures lights == old(lights) + [light]
    {
      lights := lights + [light];
    }

    /**
     * removeLight: null does nothing. Otherwise the light stops being active if it was,
     * every occurrence leaves the list, and the light is deleted; another active light
     * stays active.
     */
    method RemoveLight(light: Light?)
      modifies this`lights, this`activeLight, (if light == null then {} else {light})`destroyed
      ensures light == null ==> lights == old(lights) && activeLight == old(activeLight)
      ensures light != null ==> lights == Lists.RemoveAll<Light>(old(lights), light) && light.destroyed
      ensures light != null ==> activeLight != light
      ensures light != old(activeLight) ==> activeLight == old(activeLight)
      ensures light != null && light == old(activeLight) ==> activeLight == null
    {
      if light != null {
        if light == activeLight {
          activeLight := null;
        }
        lights := Lists.RemoveAll<Light>(lights, light);
        light.destroyed := true;
      }
    }

    /** setActiveLight stores any light, listed or not, or null. */
    method SetActiveLight(newActiveLight: Light?)
      modifies this`activeLight
      ensures activeLight == newActiveLight
    {
      activeLight := newActiveLight;
    }
  }
}
