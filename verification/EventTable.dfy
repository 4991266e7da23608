/** The event names and the event types each of them carries. */
module EventTable {
  datatype ET = Enable | PreEnable | OverrideLateral | OverrideLongitudinal | NoEntry | Warning
              | UserDisable | SoftDisable | ImmediateDisable | Permanent

  datatype EventName =
    | StockFcw | ActuatorsApiUnavailable | JoystickDebug | LongitudinalManeuver | LateralManeuver
    | SelfdriveInitializing | Startup | StartupMaster | StartupNoControl | StartupNoCar | StartupNoSecOcKey
    | DashcamMode | InvalidLkasSetting | CruiseMismatch | CarUnrecognized | Aeb | StockAeb | StockLkas | Fcw
    | Ldw | SteerTempUnavailableSilent | DriverDistracted1 | DriverDistracted2 | DriverDistracted3
    | DriverUnresponsive1 | DriverUnresponsive2 | DriverUnresponsive3 | ManualRestart | ResumeRequired
    | BelowSteerSpeed | PreLaneChangeLeft | PreLaneChangeRight | LaneChangeBlocked | LaneChange
    | SteerSaturated | FanMalfunction | CameraMalfunction | CameraFrameRate | LocationdTemporaryError
    | LocationdPermanentError | ParamsdTemporaryError | ParamsdPermanentError | PcmEnable | ButtonEnable
    | PcmDisable | ButtonCancel | BrakeHold | ParkBrake | PedalPressed | SteerDisengage | PreEnableStandstill
    | GasPressedOverride | SteerOverride | WrongCarMode | ResumeBlocked | WrongCruiseMode
    | SteerTempUnavailable | SteerTimeLimit | OutOfSpace | BelowEngageSpeed | SensorDataInvalid | NoGps
    | TooDistracted | ExcessiveActuation | Overheat | WrongGear | CalibrationInvalid | CalibrationIncomplete
    | CalibrationRecalibrating | DoorOpen | SeatbeltNotLatched | EspDisabled | LowBattery | CommIssue
    | CommIssueAvgFreq | SelfdrivedLagging | ProcessNotRunning | RadarFault | RadarTempUnavailable
    | ModeldLagging | PosenetInvalid | DeviceFalling | LowMemory | AccFaulted | EspActive | ControlsMismatch
    | UsbError | CanError | CanBusMissing | SteerUnavailable | ReverseGear | CruiseDisabled | RelayMalfunction
    | SpeedTooLow | SpeedTooHigh | VehicleSensorsInvalid | PersonalityChanged | UserBookmark | AudioFeedback

  /** The keys of the source's EVENTS entry for `e`. */
  function TypesOf(e: EventName): set<ET> {
    match e
    case StockFcw | ActuatorsApiUnavailable | CruiseMismatch | NoGps =>
      {}
    case JoystickDebug | LongitudinalManeuver | LateralManeuver =>
      {ET.Warning, ET.Permanent}
    case SelfdriveInitializing | StockLkas | ResumeBlocked | BelowEngageSpeed | TooDistracted =>
      {ET.NoEntry}
    case Startup | StartupMaster | StartupNoCar | StartupNoSecOcKey | DashcamMode | CarUnrecognized | Fcw | Ldw
    | DriverDistracted1 | DriverDistracted2 | DriverDistracted3 | DriverUnresponsive1 | DriverUnresponsive2
    | DriverUnresponsive3 | FanMalfunction | UserBookmark | AudioFeedback =>
      {ET.Permanent}
    case StartupNoControl | InvalidLkasSetting | Aeb | StockAeb | OutOfSpace =>
      {ET.NoEntry, ET.Permanent}
    case SteerTempUnavailableSilent | ManualRestart | ResumeRequired | BelowSteerSpeed | PreLaneChangeLeft
    | PreLaneChangeRight | LaneChangeBlocked | LaneChange | SteerSaturated | BrakeHold | PersonalityChanged =>
      {ET.Warning}
    case CameraMalfunction | CameraFrameRate | SensorDataInvalid | Overheat | CalibrationInvalid
    | CalibrationIncomplete | CalibrationRecalibrating | ModeldLagging | LowMemory | UsbError =>
      {ET.NoEntry, ET.SoftDisable, ET.Permanent}
    case LocationdTemporaryError | ParamsdTemporaryError | SteerTempUnavailable | SteerTimeLimit
    | ExcessiveActuation | WrongGear | DoorOpen | SeatbeltNotLatched | EspDisabled | LowBattery | CommIssue
    | CommIssueAvgFreq | SelfdrivedLagging | ProcessNotRunning | RadarFault | RadarTempUnavailable
    | PosenetInvalid | DeviceFalling | EspActive =>
      {ET.NoEntry, ET.SoftDisable}
    case LocationdPermanentError | ParamsdPermanentError | AccFaulted | CanError | CanBusMissing
    | SteerUnavailable | RelayMalfunction | VehicleSensorsInvalid =>
      {ET.NoEntry, ET.ImmediateDisable, ET.Permanent}
    case PcmEnable | ButtonEnable =>
      {ET.Enable}
    case PcmDisable =>
      {ET.UserDisable}
    case ButtonCancel | ParkBrake | PedalPressed | SteerDisengage | WrongCarMode | WrongCruiseMode =>
      {ET.NoEntry, ET.UserDisable}
    case PreEnableStandstill =>
      {ET.PreEnable}
    case GasPressedOverride =>
      {ET.OverrideLongitudinal}
    case SteerOverride =>
      {ET.OverrideLateral}
    case ControlsMismatch =>
      {ET.NoEntry, ET.ImmediateDisable}
    case ReverseGear =>
      {ET.NoEntry, ET.UserDisable, ET.Permanent}
    case CruiseDisabled | SpeedTooLow =>
      {ET.ImmediateDisable}
    case SpeedTooHigh =>
      {ET.NoEntry, ET.Warning}
  }

  /** Whatever asks for a soft disable also blocks entry. */
  lemma SoftDisableBlocksEntry(e: EventName)
    ensures ET.SoftDisable in TypesOf(e) ==> ET.NoEntry in TypesOf(e)
  {
  }

  // ----- the table read the other way: which events carry a type

  lemma EventsThatEngage(e: EventName)
    ensures match e case PcmEnable | ButtonEnable => ET.Enable in TypesOf(e) case _ => ET.Enable !in TypesOf(e)
    ensures match e case PreEnableStandstill => ET.PreEnable in TypesOf(e) case _ => ET.PreEnable !in TypesOf(e)
    ensures match e case SteerOverride => ET.OverrideLateral in TypesOf(e) case _ => ET.OverrideLateral !in TypesOf(e)
    ensures match e case GasPressedOverride => ET.OverrideLongitudinal in TypesOf(e) case _ => ET.OverrideLongitudinal !in TypesOf(e)
  {
  }

  lemma EventsThatDisengage(e: EventName)
    ensures match e
      case PcmDisable | ButtonCancel | ParkBrake | PedalPressed | SteerDisengage | WrongCarMode
      | WrongCruiseMode | ReverseGear =>
        ET.UserDisable in TypesOf(e)
      case _ => ET.UserDisable !in TypesOf(e)
    ensures match e
      case LocationdPermanentError | ParamsdPermanentError | AccFaulted | ControlsMismatch | CanError
      | CanBusMissing | SteerUnavailable | CruiseDisabled | RelayMalfunction | SpeedTooLow
      | VehicleSensorsInvalid =>
        ET.ImmediateDisable in TypesOf(e)
      case _ => ET.ImmediateDisable !in TypesOf(e)
    ensures match e
      case CameraMalfunction | CameraFrameRate | LocationdTemporaryError | ParamsdTemporaryError
      | SteerTempUnavailable | SteerTimeLimit | SensorDataInvalid | ExcessiveActuation | Overheat
      | WrongGear | CalibrationInvalid | CalibrationIncomplete | CalibrationRecalibrating | DoorOpen
      | SeatbeltNotLatched | EspDisabled | LowBattery | CommIssue | CommIssueAvgFreq | SelfdrivedLagging
      | ProcessNotRunning | RadarFault | RadarTempUnavailable | ModeldLagging | PosenetInvalid
      | DeviceFalling | LowMemory | EspActive | UsbError =>
        ET.SoftDisable in TypesOf(e)
      case _ => ET.SoftDisable !in TypesOf(e)
  {
  }

  lemma EventsThatShow(e: EventName)
    ensures match e
      case JoystickDebug | LongitudinalManeuver | LateralManeuver | SteerTempUnavailableSilent | ManualRestart
      | ResumeRequired | BelowSteerSpeed | PreLaneChangeLeft | PreLaneChangeRight | LaneChangeBlocked
      | LaneChange | SteerSaturated | BrakeHold | SpeedTooHigh | PersonalityChanged =>
        ET.Warning in TypesOf(e)
      case _ => ET.Warning !in TypesOf(e)
    ensures match e
      case JoystickDebug | LongitudinalManeuver | LateralManeuver | Startup | StartupMaster | StartupNoControl
      | StartupNoCar | StartupNoSecOcKey | DashcamMode | InvalidLkasSetting | CarUnrecognized | Aeb
      | StockAeb | Fcw | Ldw | DriverDistracted1 | DriverDistracted2 | DriverDistracted3
      | DriverUnresponsive1 | DriverUnresponsive2 | DriverUnresponsive3 | FanMalfunction
      | CameraMalfunction | CameraFrameRate | LocationdPermanentError | ParamsdPermanentError | OutOfSpace
      | SensorDataInvalid | Overheat | CalibrationInvalid | CalibrationIncomplete
      | CalibrationRecalibrating | ModeldLagging | LowMemory | AccFaulted | UsbError | CanError
      | CanBusMissing | SteerUnavailable | ReverseGear | RelayMalfunction | VehicleSensorsInvalid
      | UserBookmark | AudioFeedback =>
        ET.Permanent in TypesOf(e)
      case _ => ET.Permanent !in TypesOf(e)
  {
  }

  /** Besides the soft disables these block entry. */
  lemma EventsThatBlockEntry(e: EventName)
    ensures match e
      case SelfdriveInitializing | StartupNoControl | InvalidLkasSetting | Aeb | StockAeb | StockLkas
      | LocationdPermanentError | ParamsdPermanentError | ButtonCancel | ParkBrake | PedalPressed
      | SteerDisengage | WrongCarMode | ResumeBlocked | WrongCruiseMode | OutOfSpace | BelowEngageSpeed
      | TooDistracted | AccFaulted | ControlsMismatch | CanError | CanBusMissing | SteerUnavailable
      | ReverseGear | RelayMalfunction | SpeedTooHigh | VehicleSensorsInvalid =>
        ET.NoEntry in TypesOf(e)
      case _ => ET.NoEntry in TypesOf(e) <==> ET.SoftDisable in TypesOf(e)
  {
  }

  /** The event types some event of the list carries. */
  function Types(events: seq<EventName>): set<ET> {
    set e, t | e in events && t in TypesOf(e) :: t
  }
}
