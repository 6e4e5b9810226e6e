/** Negotiated telephone-event capability and the configuration of a digit parser. */
module DtmfTypes {
  import opened Prelude

  datatype Capability = Capability(payloadType: nat, clockRate: nat, events: set<nat>, detectable: bool)

  datatype MediaMode = Transparent | Observe | Collect {
    function Priority(): nat {
      match this case Transparent => 0 case Observe => 1 case Collect => 2
    }
  }

  datatype ParserConfig = ParserConfig(generation: nat, capability: Option<Capability>, mode: MediaMode) {
    function ActiveCapability(): Option<Capability> { if mode == Transparent then None else capability }

    /** set_dtmf_mode: a mode change raises the generation, a repeated mode changes nothing. */
    function SetMode(mode: MediaMode): ParserConfig {
      if this.mode == mode then this else WithMode(SatAdd(generation, 1), capability, mode)
    }
  }

  /** A capability that cannot be detected counts as not negotiated. */
  function WithMode(generation: nat, capability: Option<Capability>, mode: MediaMode): ParserConfig {
    ParserConfig(generation, if capability.Some? && capability.value.detectable then capability else None, mode)
  }

  /** What a configuration lets the parser look for: a detectable capability, unless digits pass unobserved. */
  lemma ActiveExactly(generation: nat, capability: Option<Capability>, mode: MediaMode)
    ensures var config := WithMode(generation, capability, mode);
            && config.generation == generation && config.mode == mode
            && config.capability == (if capability.Some? && capability.value.detectable then capability else None)
            && config.ActiveCapability()
               == if capability.Some? && capability.value.detectable && mode != Transparent then capability else None
  {
  }
}
