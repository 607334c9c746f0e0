/** Microgrid component metadata: categories, inverter types, grid metadata,
    the component record, and the total mappings from protocol codes. */
module Components {
  import opened Wrappers
  import opened Fuses

  /* Protocol category codes. The protocol's own constants are not part of
     this model: these stand-ins are distinct from each other, which is all
     the conversions below rely on. */
  const UnspecifiedCode: int := 0
  const GridCode: int := 1
  const MeterCode: int := 2
  const InverterCode: int := 3
  const BatteryCode: int := 5
  const EvChargerCode: int := 6
  const SensorCode: int := 7
  const ChpCode: int := 8
  /** PV arrays have no protocol category yet; they are inferred from the
      graph, and the enum gives them this code of its own. */
  const PvArrayCode: int := 1000001

  /** The categories a component can have. `Unspecified` is the enum's
      `NONE` member. Sensors are deliberately not a category. */
  datatype ComponentCategory =
    | Unspecified
    | Grid
    | Meter
    | Inverter
    | Battery
    | EvCharger
    | Chp
    | PvArray
  {
    /** The enum member's value: its protocol code. */
    function Code(): int {
      match this
      case Unspecified => UnspecifiedCode
      case Grid => GridCode
      case Meter => MeterCode
      case Inverter => InverterCode
      case Battery => BatteryCode
      case EvCharger => EvChargerCode
      case Chp => ChpCode
      case PvArray => PvArrayCode
    }
  }

  /** The category whose value is `code`, if there is one. */
  function CategoryWithCode(code: int): (r: Option<ComponentCategory>)
    ensures r.Some? ==> r.value.Code() == code
    ensures r.None? <==> forall k: ComponentCategory :: k.Code() != code
  {
    if code == UnspecifiedCode then Some(Unspecified)
    else if code == GridCode then Some(Grid)
    else if code == MeterCode then Some(Meter)
    else if code == InverterCode then Some(Inverter)
    else if code == BatteryCode then Some(Battery)
    else if code == EvChargerCode then Some(EvCharger)
    else if code == ChpCode then Some(Chp)
    else if code == PvArrayCode then Some(PvArray)
    else None
  }

  /** Distinct categories have distinct codes, and none is the sensor code. */
  lemma CategoryCodesDistinct(a: ComponentCategory, b: ComponentCategory)
    ensures a.Code() == b.Code() ==> a == b
    ensures a.Code() != SensorCode
  {
  }

  /** Why a protocol category cannot become a component category. */
  datatype ConversionError = SensorIsNotAComponent

  /** Converts a protocol category code to a category: the sensor code is an
      error, a code of no category becomes `Unspecified`, and every other code
      becomes the category with that code. */
  function CategoryFromProtobuf(code: int): (r: Result<ComponentCategory, ConversionError>)
    ensures r.Failure? <==> code == SensorCode
    ensures r.Success? && CategoryWithCode(code).None? ==> r.value == Unspecified
    ensures r.Success? && CategoryWithCode(code).Some? ==> r.value.Code() == code
  {
    if code == SensorCode then
      Failure(SensorIsNotAComponent)
    else
      match CategoryWithCode(code)
      case None => Success(Unspecified)
      case Some(k) => Success(k)
  }

  /** Every category survives the trip through its code, PV arrays included. */
  lemma CategoryRoundTrip(k: ComponentCategory)
    ensures CategoryFromProtobuf(k.Code()) == Success(k)
  {
    CategoryCodesDistinct(k, CategoryWithCode(k.Code()).value);
  }

  /** A code other than the sensor's that belongs to no category never
      fails: it yields `Unspecified`. */
  lemma UnknownCodeIsUnspecified(code: int)
    requires code != SensorCode
    requires forall k: ComponentCategory :: k.Code() != code
    ensures CategoryFromProtobuf(code) == Success(Unspecified)
  {
  }

  /* Protocol inverter-type codes; stand-ins, distinct from each other. */
  const TypeUnspecifiedCode: int := 0
  const TypeBatteryCode: int := 1
  const TypeSolarCode: int := 2
  const TypeHybridCode: int := 3

  /** The kinds of inverter. */
  datatype InverterType = UnspecifiedType | BatteryType | SolarType | HybridType {
    function Code(): int {
      match this
      case UnspecifiedType => TypeUnspecifiedCode
      case BatteryType => TypeBatteryCode
      case SolarType => TypeSolarCode
      case HybridType => TypeHybridCode
    }
  }

  /** The inverter type whose value is `code`, if there is one. */
  function InverterTypeWithCode(code: int): (r: Option<InverterType>)
    ensures r.Some? ==> r.value.Code() == code
    ensures r.None? <==> forall t: InverterType :: t.Code() != code
  {
    if code == TypeUnspecifiedCode then Some(UnspecifiedType)
    else if code == TypeBatteryCode then Some(BatteryType)
    else if code == TypeSolarCode then Some(SolarType)
    else if code == TypeHybridCode then Some(HybridType)
    else None
  }

  /** Converts the type field of a component's metadata. Inverter-type codes
      are not unique across categories, so only an inverter gets a type: the
      one whose value is the metadata's type, if any. */
  function InverterTypeFromProtobuf(categoryCode: int, metadataType: int): (r: Option<InverterType>)
    ensures categoryCode != InverterCode ==> r.None?
    ensures r.Some? ==> r.value.Code() == metadataType
    ensures categoryCode == InverterCode ==>
      (r.None? <==> forall t: InverterType :: t.Code() != metadataType)
  {
    if categoryCode == InverterCode then InverterTypeWithCode(metadataType) else None
  }

  /** Metadata of the grid connection point: the largest current it can carry,
      in Amperes, and the fuse the grid-connection code reads from it. */
  datatype GridMetadata = GridMetadata(maxCurrent: real, fuse: Option<Fuse>)

  /** Component metadata: grid metadata, or an instance of the base class,
      which carries nothing. */
  datatype ComponentMetadata = GridMeta(grid: GridMetadata) | BaseMetadata

  /** Grid metadata built from a maximum current; its fuse rates every phase
      at that current. */
  function GridMetadataOf(maxCurrent: real): GridMetadata
  {
    GridMetadata(maxCurrent, Some(UniformFuse(maxCurrent)))
  }

  /** Builds the metadata of a component: grid metadata rated at the fuse
      current for the grid category, nothing for every other category. */
  function MetadataFromProtobuf(categoryCode: int, ratedFuseCurrent: nat): (r: Option<GridMetadata>)
    ensures r.Some? <==> categoryCode == GridCode
    ensures r.Some? ==> r.value.maxCurrent == ratedFuseCurrent as real
  {
    if categoryCode == GridCode then Some(GridMetadataOf(ratedFuseCurrent as real)) else None
  }

  /** Grid metadata's equality: the other side must be grid metadata with the
      same maximum current. */
  predicate GridMetadataEquals(self: GridMetadata, rhs: ComponentMetadata)
  {
    rhs.GridMeta? && self.maxCurrent == rhs.grid.maxCurrent
  }

  /** Grid metadata's hash: the runtime's hash of the maximum current. The
      runtime's float hash is not part of the model, so it is a parameter. */
  function GridMetadataHash(m: GridMetadata, floatHash: real -> int): int
  {
    floatHash(m.maxCurrent)
  }

  /** Grid metadata's equality is an equivalence, never holds against other
      metadata, and equal values hash alike. */
  lemma GridMetadataEqualityLaws(a: GridMetadata, b: GridMetadata, c: GridMetadata, floatHash: real -> int)
    ensures GridMetadataEquals(a, GridMeta(a))
    ensures GridMetadataEquals(a, GridMeta(b)) ==> GridMetadataEquals(b, GridMeta(a))
    ensures GridMetadataEquals(a, GridMeta(b)) && GridMetadataEquals(b, GridMeta(c)) ==> GridMetadataEquals(a, GridMeta(c))
    ensures !GridMetadataEquals(a, BaseMetadata)
    ensures GridMetadataEquals(a, GridMeta(b)) ==> GridMetadataHash(a, floatHash) == GridMetadataHash(b, floatHash)
  {
  }

  /** A component's category as stored: a known category, or a value that is
      none of them (which only invalid input can hold). */
  datatype CategoryValue = Known(category: ComponentCategory) | Unknown(raw: int)

  /** One microgrid component. Frozen, so equality is by value on all four
      fields. `componentType` is the source's `type` field. */
  datatype Component = Component(
    id: int,
    category: CategoryValue,
    componentType: Option<InverterType>,
    metadata: Option<ComponentMetadata>)
  {
    predicate Is(k: ComponentCategory) {
      category == Known(k)
    }

    /** A positive id with a known category, or id 0 for the grid. */
    predicate IsValid() {
      (id > 0 && category.Known?) || (id == 0 && Is(Grid))
    }
  }

  /** A component with no type and no metadata. */
  function Plain(id: int, k: ComponentCategory): Component
  {
    Component(id, Known(k), None, None)
  }

  /** Validity, stated per id: negative ids are never valid, id 0 is valid
      only for the grid, and a positive id is valid exactly when the category
      is a known one. */
  lemma ValidityById(c: Component)
    ensures c.id < 0 ==> !c.IsValid()
    ensures c.id == 0 ==> (c.IsValid() <==> c.category == Known(Grid))
    ensures c.id > 0 ==> (c.IsValid() <==> c.category.Known?)
  {
  }

  /** The metrics a component can report. */
  datatype ComponentMetricId =
    | ActivePower
    | CurrentPhase1 | CurrentPhase2 | CurrentPhase3
    | VoltagePhase1 | VoltagePhase2 | VoltagePhase3
    | Soc | SocLowerBound | SocUpperBound | Capacity
    | PowerInclusionLowerBound | PowerExclusionLowerBound
    | PowerExclusionUpperBound | PowerInclusionUpperBound
    | ActivePowerInclusionLowerBound | ActivePowerExclusionLowerBound
    | ActivePowerExclusionUpperBound | ActivePowerInclusionUpperBound
    | Temperature
}
