/** The module selector of the theory tab (its change handler in app.js):
    the SP1848 and generic presets fill in the geometry and the thermal
    parameters, and only a custom module lets the user edit the geometry. */
module Presets {
  import opened Wrappers
  import opened Teg

  /** The values a preset writes into the geometry and thermal inputs. */
  datatype PresetValues = PresetValues(area: real, espesor: real, rTh: real, emitancia: real)

  /** The preset of a module name: none for "personalizado" or any other
      name, whose inputs are left as the user set them. */
  function Preset(modulo: string): (p: Option<PresetValues>)
    ensures p.Some? <==> modulo == "sp1848" || modulo == "generico"
  {
    if modulo == "sp1848" then Some(PresetValues(16.0, 3.8, 0.5, 0.8))
    else if modulo == "generico" then Some(PresetValues(1.0, 4.0, 0.5, 0.8))
    else None
  }

  /** The presets describe the backend's own modules: SP1848 is the module of
      the real-data analysis and the generic preset is the module
      constructor's defaults. */
  lemma PresetsMatchBackend()
    ensures Preset("sp1848") == Some(PresetValues(Sp1848.areaCm2, Sp1848.espesorMm, Sp1848.aislamientoRTh, Sp1848.emitancia))
    ensures Preset("generico") ==
              Some(PresetValues(DefaultModule.areaCm2, DefaultModule.espesorMm, DefaultModule.aislamientoRTh,
                                DefaultModule.emitancia))
  {
  }

  /** The theory tab's module inputs. */
  class TheoryInputs {
    var modulo: string
    var area: real
    var espesor: real
    var rTh: real
    var emitancia: real
    var areaDisabled: bool
    var espesorDisabled: bool

    constructor (moduloName: string, areaCm2: real, espesorMm: real, rThermal: real, emit: real)
      ensures modulo == moduloName && area == areaCm2 && espesor == espesorMm && rTh == rThermal && emitancia == emit
      ensures !areaDisabled && !espesorDisabled
    {
      modulo := moduloName;
      area := areaCm2;
      espesor := espesorMm;
      rTh := rThermal;
      emitancia := emit;
      areaDisabled := false;
      espesorDisabled := false;
    }

    /** The change handler: the geometry inputs are disabled unless the module
      is custom, a preset overwrites the four values, and the selector
      itself is left alone. */
    method OnModuleChange()
      modifies this
      ensures modulo == old(modulo)
      ensures areaDisabled <==> modulo != "personalizado"
      ensures espesorDisabled <==> modulo != "personalizado"
      ensures Preset(modulo).Some? ==>
                PresetValues(area, espesor, rTh, emitancia) == Preset(modulo).value
      ensures Preset(modulo).None? ==>
                area == old(area) && espesor == old(espesor) && rTh == old(rTh) && emitancia == old(emitancia)
    {
      areaDisabled := modulo != "personalizado";
      espesorDisabled := modulo != "personalizado";
      if modulo == "sp1848" {
        area := 16.0;
        espesor := 3.8;
        rTh := 0.5;
        emitancia := 0.8;
      } else if modulo == "generico" {
        area := 1.0;
        espesor := 4.0;
        rTh := 0.5;
        emitancia := 0.8;
      }
    }
  }
}
