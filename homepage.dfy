/** The page component's state and its event handlers: the one-shot location lookup,
    facility and product selection, back buttons and the bottom navigation, together
    with the choice of the screen that is rendered. */
module HomePage {
  import opened Catalog
  import opened Specialties
  import opened Ranking

  datatype NavTab = HomeTab | StoreTab | ProfileTab

  /** What the page renders, with the data each screen derives from the state. */
  datatype Screen =
    | HospitalDetail(hospital: Hospital, categories: seq<string>, specialties: seq<Specialty>, noResults: bool)
    | ProductDetail(product: Product)
    | HomeScreen(hospitals: seq<Hospital>, locating: bool, deniedNotice: bool, sortedByDistance: bool)
    | StoreScreen
    | ProfileScreen

  class PageState {
    /** The static facility catalog and the store's products. */
    const catalog: seq<Hospital>
    const products: seq<Product>

    var userLocation: Option<Coordinate>
    var hospitals: seq<Hospital>
    var loading: bool
    var permissionDenied: bool
    var activeTab: NavTab
    var selectedHospital: Option<Hospital>
    var selectedProduct: Option<Product>
    var specialtyFilter: string

    /** The invariant every reachable state keeps. */
    ghost predicate Valid()
      reads this
    {
      // the catalog's records carry no distance
      && (forall h :: h in catalog ==> h.distance.None?)
      // at most one detail screen is open, and it belongs to the tab it was opened from
      && !(selectedHospital.Some? && selectedProduct.Some?)
      && (selectedHospital.Some? ==> activeTab == HomeTab)
      && (selectedProduct.Some? ==> activeTab == StoreTab)
      // the filter is one of the open facility's buttons
      && (selectedHospital.Some? ==> specialtyFilter in SpecialtyCategories(selectedHospital.value.specialties))
      // the location lookup resolves once: before that the list is empty
      && (loading ==> hospitals == [] && userLocation.None? && !permissionDenied)
      && (userLocation.Some? ==> !loading && !permissionDenied)
      && (permissionDenied ==> !loading && userLocation.None? && hospitals == catalog)
    }

    /** The state on first render: locating, no list yet, home tab, filter `All`. */
    constructor (catalog: seq<Hospital>, products: seq<Product>)
      requires forall h :: h in catalog ==> h.distance.None?
      ensures Valid()
      ensures this.catalog == catalog && this.products == products
      ensures userLocation == None && hospitals == [] && loading && !permissionDenied
      ensures activeTab == HomeTab && selectedHospital == None && selectedProduct == None
      ensures specialtyFilter == AllCategories
    {
      this.catalog := catalog;
      this.products := products;
      userLocation := None;
      hospitals := [];
      loading := true;
      permissionDenied := false;
      activeTab := HomeTab;
      selectedHospital := None;
      selectedProduct := None;
      specialtyFilter := AllCategories;
    }

    /** The rendered screen, chosen in order: facility detail, product detail, then the active tab. */
    function Render(): (v: Screen)
      reads this
      ensures v.HospitalDetail? <==> selectedHospital.Some?
      ensures v.ProductDetail? <==> selectedHospital.None? && selectedProduct.Some?
      ensures v.HomeScreen? <==> selectedHospital.None? && selectedProduct.None? && activeTab == HomeTab
      ensures v.StoreScreen? <==> selectedHospital.None? && selectedProduct.None? && activeTab == StoreTab
      ensures v.ProfileScreen? <==> selectedHospital.None? && selectedProduct.None? && activeTab == ProfileTab
      ensures v.HospitalDetail? ==>
        && v.hospital == selectedHospital.value
        && v.categories == SpecialtyCategories(v.hospital.specialties)
        && v.specialties == FilteredSpecialties(v.hospital.specialties, specialtyFilter)
        && (v.noResults <==> v.specialties == [])
      ensures v.ProductDetail? ==> v.product == selectedProduct.value
      ensures v.HomeScreen? ==>
        && v.hospitals == hospitals && v.locating == loading && v.deniedNotice == permissionDenied
        && (v.sortedByDistance <==> userLocation.Some?)
    {
      match selectedHospital
      case Some(h) =>
        var shown := FilteredSpecialties(h.specialties, specialtyFilter);
        HospitalDetail(h, SpecialtyCategories(h.specialties), shown, |shown| == 0)
      case None =>
        match selectedProduct
        case Some(p) => ProductDetail(p)
        case None => TabScreen(activeTab, hospitals, loading, permissionDenied, userLocation.Some?)
    }

    /** The screen a tab shows when no detail screen is open. */
    static function TabScreen(tab: NavTab, hospitals: seq<Hospital>, loading: bool, denied: bool, located: bool): (v: Screen) {
      match tab
      case HomeTab => HomeScreen(hospitals, loading, denied, located)
      case StoreTab => StoreScreen
      case ProfileTab => ProfileScreen
    }

    /** The position lookup succeeded: remember the position and rank the catalog nearest first. */
    method LocationFound(user: Coordinate, dist: (Coordinate, Coordinate) -> real)
      requires Valid() && loading
      modifies this
      ensures Valid()
      ensures userLocation == Some(user) && !loading && !permissionDenied
      ensures exists order :: IsStableSortOf(hospitals, Annotated(catalog, user, dist), order)
      ensures forall h :: h in hospitals ==> h.distance == Some(dist(user, Position(h)))
      ensures activeTab == old(activeTab) && selectedHospital == old(selectedHospital)
      ensures selectedProduct == old(selectedProduct) && specialtyFilter == old(specialtyFilter)
    {
      userLocation := Some(user);
      var ranked, order := RankByDistance(catalog, user, dist);
      hospitals := ranked;
      loading := false;
      forall h | h in hospitals ensures h.distance == Some(dist(user, Position(h))) {
        var i :| 0 <= i < |ranked| && ranked[i] == h;
        assert SortKey(h) == dist(user, Position(h));
      }
    }

    /** The lookup failed or the browser has no geolocation: show the catalog in its own order
        with the "location access denied" notice. */
    method LocationUnavailable()
      requires Valid() && loading
      modifies this
      ensures Valid()
      ensures hospitals == catalog && permissionDenied && !loading
      ensures forall h :: h in hospitals ==> h.distance.None?
      ensures userLocation == old(userLocation) == None
      ensures activeTab == old(activeTab) && selectedHospital == old(selectedHospital)
      ensures selectedProduct == old(selectedProduct) && specialtyFilter == old(specialtyFilter)
    {
      permissionDenied := true;
      hospitals := catalog;
      loading := false;
    }

    /** A facility card on the home screen was clicked: open it with the filter reset to `All`. */
    method HospitalClick(h: Hospital)
      requires Valid() && Render().HomeScreen? && h in hospitals
      modifies this`selectedHospital, this`specialtyFilter
      ensures Valid()
      ensures selectedHospital == Some(h) && specialtyFilter == AllCategories
      ensures Render() == HospitalDetail(h, SpecialtyCategories(h.specialties), h.specialties, h.specialties == [])
    {
      selectedHospital := Some(h);
      specialtyFilter := AllCategories;
    }

    /** A category button of the facility screen was clicked. */
    method SelectSpecialtyFilter(category: string)
      requires Valid() && selectedHospital.Some?
      requires category in SpecialtyCategories(selectedHospital.value.specialties)
      modifies this`specialtyFilter
      ensures Valid()
      ensures specialtyFilter == category
      ensures Render().specialties == FilteredSpecialties(selectedHospital.value.specialties, category)
    {
      specialtyFilter := category;
    }

    /** "Back to List" on the facility screen: close it and return to the list. */
    method BackToList()
      requires Valid() && selectedHospital.Some?
      modifies this`selectedHospital
      ensures Valid()
      ensures selectedHospital == None
      ensures Render() == HomeScreen(hospitals, loading, permissionDenied, userLocation.Some?)
    {
      selectedHospital := None;
    }

    /** A bottom-navigation button on the facility screen: close it and switch to `tab`. */
    method HospitalScreenNav(tab: NavTab)
      requires Valid() && selectedHospital.Some?
      modifies this`selectedHospital, this`activeTab
      ensures Valid()
      ensures selectedHospital == None && activeTab == tab
      ensures Render() == TabScreen(tab, hospitals, loading, permissionDenied, userLocation.Some?)
    {
      selectedHospital := None;
      activeTab := tab;
    }

    /** "Back to Store" on the product screen: close it. */
    method BackToStore()
      requires Valid() && selectedProduct.Some?
      modifies this`selectedProduct
      ensures Valid()
      ensures selectedProduct == None
      ensures Render() == StoreScreen
    {
      selectedProduct := None;
    }

    /** A bottom-navigation button on the product screen: Home and Profile close it and switch
        tab; Store only closes it, leaving the tab as it was. */
    method ProductScreenNav(tab: NavTab)
      requires Valid() && selectedProduct.Some?
      modifies this`selectedProduct, this`activeTab
      ensures Valid()
      ensures selectedProduct == None
      ensures activeTab == if tab == StoreTab then old(activeTab) else tab
      ensures Render() == TabScreen(tab, hospitals, loading, permissionDenied, userLocation.Some?)
    {
      if tab != StoreTab {
        activeTab := tab;
      }
      selectedProduct := None;
    }

    /** A bottom-navigation button (or "Shop Now") on the home, store or profile screen. */
    method SelectTab(tab: NavTab)
      requires Valid() && selectedHospital.None? && selectedProduct.None?
      modifies this`activeTab
      ensures Valid()
      ensures activeTab == tab
      ensures Render() == TabScreen(tab, hospitals, loading, permissionDenied, userLocation.Some?)
    {
      activeTab := tab;
    }

    /** A product card, or its "View Details" button, on the store screen. */
    method SelectProduct(p: Product)
      requires Valid() && Render().StoreScreen? && p in products
      modifies this`selectedProduct
      ensures Valid()
      ensures selectedProduct == Some(p)
      ensures Render() == ProductDetail(p)
    {
      selectedProduct := Some(p);
    }
  }

  /** In any reachable state the facility screen says "no specialties found" only when the
      facility has no specialties at all: every filter button selects something. */
  lemma NoResultsOnlyWithoutSpecialties(page: PageState)
    requires page.Valid() && page.Render().HospitalDetail?
    ensures page.Render().noResults <==> page.Render().hospital.specialties == []
  {
  }
}
