/**
 * `TodayActivity`: the screen of the current fishing day with the tracking switch.
 * The switch shows the activity's own `trackingLocation` state, which the activity
 * copies from the application when it binds its view and after a toggle.
 */
module Today {
  import opened Common
  import Period
  import Application
  import opened Archive

  class TodayActivity {
    const app: Application.FishingApplication
    /** The state the switch shows. */
    var trackingLocation: bool
    var day: Period.Day
    var timestamp: int

    /** The switch shows what the application does. */
    predicate SwitchAgrees()
      reads this, app
    {
      trackingLocation == app.trackingLocation
    }

    constructor (app: Application.FishingApplication)
      ensures this.app == app && !trackingLocation
    {
      this.app := app;
      trackingLocation := false;
      day := Period.Day(0, Period.DayMs);
      timestamp := 0;
    }

    /** `bindView()`: the switch starts from the application's flag. */
    method BindView()
      modifies this`trackingLocation
      ensures SwitchAgrees()
    {
      trackingLocation := app.trackingLocation;
    }

    /**
     * `setDayAndTime()`: the fishing day around the present moment, and a timestamp
     * twelve hours after its start.
     */
    method SetDayAndTime(now: int, zone: int)
      modifies this`day, this`timestamp
      ensures day == Period.PeriodBoundaries(now, zone)
      ensures day.start <= now < day.finish
      ensures timestamp == Period.Stamp(day) && day.start <= timestamp < day.finish
    {
      day := Period.GetPeriodBoundaries(None, now, zone);
      timestamp := Period.Stamp(day);
    }

    /**
     * `toggleTracking()`: without the location permission it only asks for it (the
     * answer arrives later, in `onRequestPermissionsResult`); with it, it toggles the
     * application's tracking. Either way the switch then copies the application's flag.
     */
    method ToggleTracking(permissionGranted: bool) returns (requested: bool)
      modifies this`trackingLocation, app
      ensures requested <==> !permissionGranted
      ensures permissionGranted ==> app.trackingLocation == !old(app.trackingLocation)
      ensures !permissionGranted ==> app.trackingLocation == old(app.trackingLocation)
      ensures SwitchAgrees()
    {
      requested := !permissionGranted;
      if permissionGranted {
        app.ToggleLocationTracking();
      }
      trackingLocation := app.trackingLocation;
    }

    /**
     * `onRequestPermissionsResult` as written: a granted location request toggles the
     * application's tracking, but the switch keeps the state it had.
     */
    method OnRequestPermissionsResultAsWritten(requestCode: int, grantResults: seq<int>)
      modifies app
      ensures Granted(requestCode, grantResults) ==> app.trackingLocation == !old(app.trackingLocation)
      ensures !Granted(requestCode, grantResults) ==> app.trackingLocation == old(app.trackingLocation)
      ensures trackingLocation == old(trackingLocation)
    {
      if requestCode == LocationRequestCode {
        if |grantResults| > 0 && grantResults[0] == PermissionGranted {
          app.ToggleLocationTracking();
        }
        return;
      }
    }

    /**
     * `onRequestPermissionsResult` corrected: after the toggle the switch copies the
     * application's flag, as `toggleTracking` does, so the switch agrees again.
     */
    method OnRequestPermissionsResult(requestCode: int, grantResults: seq<int>)
      modifies this`trackingLocation, app
      ensures Granted(requestCode, grantResults) ==> app.trackingLocation == !old(app.trackingLocation)
      ensures !Granted(requestCode, grantResults) ==> app.trackingLocation == old(app.trackingLocation)
      ensures SwitchAgrees()
    {
      if requestCode == LocationRequestCode {
        if |grantResults| > 0 && grantResults[0] == PermissionGranted {
          app.ToggleLocationTracking();
        }
      }
      trackingLocation := app.trackingLocation;
    }
  }

  /**
   * The switch as written: start the screen, tap the switch without the permission,
   * grant it. The application now tracks, yet the switch still shows it off.
   */
  method StaleSwitchScenario() returns (switchShown: bool, tracking: bool)
    ensures !switchShown && tracking
  {
    var app := new Application.FishingApplication();
    var screen := new TodayActivity(app);
    screen.BindView();
    var requested := screen.ToggleTracking(false);
    screen.OnRequestPermissionsResultAsWritten(LocationRequestCode, [PermissionGranted]);
    switchShown, tracking := screen.trackingLocation, app.trackingLocation;
  }

  /** The same steps with the corrected callback: the switch shows the tracking. */
  method CorrectedSwitchScenario() returns (switchShown: bool, tracking: bool)
    ensures switchShown && tracking
  {
    var app := new Application.FishingApplication();
    var screen := new TodayActivity(app);
    screen.BindView();
    var requested := screen.ToggleTracking(false);
    screen.OnRequestPermissionsResult(LocationRequestCode, [PermissionGranted]);
    switchShown, tracking := screen.trackingLocation, app.trackingLocation;
  }
}
